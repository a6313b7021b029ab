/**
 The decaying-counter rate limiter: a leaky bucket whose leak is computed only when somebody asks. Time is
 an integer (nanoseconds); every reading of the clock is an input.
 */
module CounterLimiters {
  import opened Wrappers
  import opened Backoffs
  import opened Division

  datatype Counter = Counter(current: int, last: int)

  datatype Limiter = Limiter(counter: Counter, backoff: Option<int>)

  /** Whole decay intervals since `last`; none if the clock went backwards. */
  function Ticks(c: Counter, now: int, decay: int): int
    requires decay > 0
  {
    if now < c.last then 0 else (now - c.last) / decay
  }

  function Decayed(c: Counter, now: int, decay: int): Counter
    requires decay > 0
  {
    var ticks := Ticks(c, now, decay);
    if ticks == 0 then c
    else Counter(if c.current < ticks then 0 else c.current - ticks, c.last + ticks * decay)
  }

  /** A request reads the clock twice: `now` for the decay, then `later` for the backoff. */
  datatype Call = Wait(now: int, later: int, cost: int) | Backoff(now: int, duration: int)

  function Admits(l: Limiter, call: Call, budget: int, decay: int): bool
    requires decay > 0
  {
    && call.Wait?
    && !Blocked(l.backoff, call.later)
    && Decayed(l.counter, call.now, decay).current + call.cost <= budget
  }

  function Step(l: Limiter, call: Call, budget: int, decay: int): Limiter
    requires decay > 0
  {
    match call
    case Backoff(now, duration) => l.(backoff := Some(now + duration))
    case Wait(now, _, cost) =>
      var c := Decayed(l.counter, now, decay);
      l.(counter := if Admits(l, call, budget, decay) then c.(current := c.current + cost) else c)
  }

  class CounterLimiter {
    const budget: int
    const decay: int
    var current: int
    var last: int
    var backoff: Option<int>

    predicate Valid()
    {
      decay > 0
    }

    function State(): Limiter
      reads this
    {
      Limiter(Counter(current, last), backoff)
    }

    constructor (budget: int, now: int)
      ensures Valid() && this.budget == budget && decay == 3_000_000_000
      ensures State() == Limiter(Counter(0, now), None)
    {
      this.budget, decay := budget, 3_000_000_000;
      current, last, backoff := 0, now, None;
    }

    method Decay(now: int)
      requires Valid()
      modifies this`current, this`last
      ensures State() == Limiter(Decayed(old(State()).counter, now, decay), old(backoff))
    {
      var elapsed := now - last;
      // Go divides towards zero, so a negative elapsed time gives no positive tick.
      var ticks := if elapsed >= 0 then elapsed / decay else -(-elapsed / decay);
      if elapsed >= 0 {
        DivNonNegative(elapsed, decay);
      } else {
        DivNonNegative(-elapsed, decay);
      }
      if ticks > 0 {
        current := current - ticks;
        if current < 0 {
          current := 0;
        }
        last := last + ticks * decay;
      }
    }

    method Wait(now: int, later: int, cost: int) returns (admitted: bool)
      requires Valid()
      modifies this`current, this`last
      ensures admitted <==> Admits(old(State()), Call.Wait(now, later, cost), budget, decay)
      ensures State() == Step(old(State()), Call.Wait(now, later, cost), budget, decay)
    {
      Decay(now);
      if backoff.Some? && later < backoff.value {
        return false;
      }
      if current + cost > budget {
        return false;
      }
      current := current + cost;
      return true;
    }

    method Backoff(now: int, duration: int)
      requires Valid()
      modifies this`backoff
      ensures State() == Step(old(State()), Call.Backoff(now, duration), budget, decay)
    {
      backoff := Some(now + duration);
    }
  }

  // ---- Decaying late is decaying on time ----

  lemma DecayInTwoSteps(c: Counter, t: int, u: int, decay: int)
    requires decay > 0 && t <= u
    ensures Decayed(Decayed(c, t, decay), u, decay) == Decayed(c, u, decay)
  {
    var k := Ticks(c, t, decay);
    if k != 0 {
      DivMinus(u - c.last, k, decay);
      DivMonotone(t - c.last, u - c.last, decay);
      DivNonNegative(t - c.last, decay);
      assert k * decay <= t - c.last;
      assert (Ticks(c, u, decay) - k) * decay + k * decay == Ticks(c, u, decay) * decay;
    }
  }

  /** A clock that takes one off, not below zero, at every grid point. */
  function Eager(c: Counter, n: nat, decay: int): Counter
  {
    if n == 0 then c
    else
      var before := Eager(c, n - 1, decay);
      Counter(if before.current < 1 then 0 else before.current - 1, before.last + decay)
  }

  lemma {:induction false} EagerSum(c: Counter, n: nat, decay: int)
    ensures n > 0 ==> Eager(c, n, decay).current == if c.current < n then 0 else c.current - n
    ensures Eager(c, n, decay).last == c.last + n * decay
  {
    if n > 0 {
      EagerSum(c, n - 1, decay);
      assert (n - 1) * decay + decay == n * decay;
    }
  }

  lemma DecayIsEager(c: Counter, now: int, decay: int)
    requires decay > 0
    ensures Ticks(c, now, decay) >= 0
    ensures Decayed(c, now, decay) == Eager(c, Ticks(c, now, decay), decay)
  {
    if now >= c.last {
      DivNonNegative(now - c.last, decay);
    }
    EagerSum(c, Ticks(c, now, decay), decay);
  }

  // ---- Timed runs ----

  datatype Admission = Admission(time: int, cost: int)

  function Run(l: Limiter, calls: seq<Call>, budget: int, decay: int): Limiter
    requires decay > 0
  {
    if calls == [] then l
    else Step(Run(l, calls[..|calls| - 1], budget, decay), calls[|calls| - 1], budget, decay)
  }

  /** What was let through, and when. */
  function Admitted(l: Limiter, calls: seq<Call>, budget: int, decay: int): seq<Admission>
    requires decay > 0
  {
    if calls == [] then []
    else
      var n := |calls| - 1;
      Admitted(l, calls[..n], budget, decay) +
      if Admits(Run(l, calls[..n], budget, decay), calls[n], budget, decay)
      then [Admission(calls[n].now, calls[n].cost)] else []
  }

  /** Clock readings do not go back, and costs are not negative. */
  predicate Timed(calls: seq<Call>, start: int)
  {
    && (forall i :: 0 <= i < |calls| ==> start <= calls[i].now && (calls[i].Wait? ==> calls[i].cost >= 0))
    && (forall i, j :: 0 <= i < j < |calls| ==> calls[i].now <= calls[j].now)
  }

  /** Number of the decay-grid interval, counted from `start`, in which `t` lies. */
  function Grid(t: int, start: int, decay: int): int
    requires decay > 0
  {
    (t - start) / decay
  }

  function CostFrom(adm: seq<Admission>, j: nat): int
    requires j <= |adm|
  {
    if |adm| == j then 0 else CostFrom(adm[..|adm| - 1], j) + adm[|adm| - 1].cost
  }

  /** The cost admitted from the `j`-th admission on, less the grid ticks since it. */
  function Excess(adm: seq<Admission>, j: nat, tick: int, start: int, decay: int): int
    requires j < |adm| && decay > 0
  {
    CostFrom(adm, j) - (tick - Grid(adm[j].time, start, decay))
  }

  /** `x` is the largest excess, or zero if none is positive. */
  ghost predicate Peak(x: int, adm: seq<Admission>, tick: int, start: int, decay: int)
    requires decay > 0
  {
    && 0 <= x
    && (forall j :: 0 <= j < |adm| ==> Excess(adm, j, tick, start, decay) <= x)
    && (x > 0 ==> exists j :: 0 <= j < |adm| && Excess(adm, j, tick, start, decay) == x)
  }

  lemma PeakDecays(x: int, adm: seq<Admission>, tick: int, later: int, start: int, decay: int)
    requires decay > 0 && tick <= later && Peak(x, adm, tick, start, decay)
    ensures Peak(if x < later - tick then 0 else x - (later - tick), adm, later, start, decay)
  {
    if x > 0 {
      var j :| 0 <= j < |adm| && Excess(adm, j, tick, start, decay) == x;
      assert Excess(adm, j, later, start, decay) == x - (later - tick);
    }
    forall j | 0 <= j < |adm|
      ensures Excess(adm, j, later, start, decay) == Excess(adm, j, tick, start, decay) - (later - tick)
    {
    }
  }

  lemma PeakAdmits(x: int, adm: seq<Admission>, a: Admission, start: int, decay: int)
    requires decay > 0 && a.cost >= 0
    requires Peak(x, adm, Grid(a.time, start, decay), start, decay)
    ensures Peak(x + a.cost, adm + [a], Grid(a.time, start, decay), start, decay)
    ensures exists j :: 0 <= j <= |adm| && Excess(adm + [a], j, Grid(a.time, start, decay), start, decay) == x + a.cost
  {
    var tick := Grid(a.time, start, decay);
    var more := adm + [a];
    assert more[..|adm|] == adm;
    forall j | 0 <= j < |adm|
      ensures Excess(more, j, tick, start, decay) == Excess(adm, j, tick, start, decay) + a.cost
    {
    }
    assert CostFrom(more, |adm|) == CostFrom(adm, |adm|) + a.cost;
    assert Excess(more, |adm|, tick, start, decay) == a.cost;
    if x > 0 {
      var j :| 0 <= j < |adm| && Excess(adm, j, tick, start, decay) == x;
      assert Excess(more, j, tick, start, decay) == x + a.cost;
    }
  }

  /** The counter sits on the grid of `start` and holds the peak of what has been admitted. */
  ghost predicate Tracks(l: Limiter, adm: seq<Admission>, now: int, start: int, decay: int)
    requires decay > 0
  {
    && l.counter.last == start + Grid(now, start, decay) * decay
    && Peak(l.counter.current, adm, Grid(now, start, decay), start, decay)
  }

  lemma TracksDecay(l: Limiter, adm: seq<Admission>, t: int, u: int, start: int, decay: int)
    requires decay > 0 && t <= u && Tracks(l, adm, t, start, decay)
    ensures Tracks(l.(counter := Decayed(l.counter, u, decay)), adm, u, start, decay)
  {
    var g, h := Grid(t, start, decay), Grid(u, start, decay);
    DivMonotone(t - start, u - start, decay);
    DivMinus(u - start, g, decay);
    assert g * decay <= t - start;
    assert u - l.counter.last == u - start - g * decay;
    assert Ticks(l.counter, u, decay) == h - g;
    assert g * decay + (h - g) * decay == h * decay;
    PeakDecays(l.counter.current, adm, g, h, start, decay);
  }

  /** Time of the last request, or the start. Backoff calls do not touch the counter. */
  function LastWait(calls: seq<Call>, start: int): int
  {
    if calls == [] then start
    else if calls[|calls| - 1].Wait? then calls[|calls| - 1].now
    else LastWait(calls[..|calls| - 1], start)
  }

  lemma {:induction false} LastWaitBefore(calls: seq<Call>, start: int, t: int)
    requires start <= t && forall i :: 0 <= i < |calls| ==> calls[i].now <= t
    ensures LastWait(calls, start) <= t
  {
    if calls != [] && calls[|calls| - 1].Backoff? {
      LastWaitBefore(calls[..|calls| - 1], start, t);
    }
  }

  lemma StepTracks(l: Limiter, adm: seq<Admission>, t: int, call: Call, start: int, budget: int, decay: int)
    requires decay > 0 && Tracks(l, adm, t, start, decay)
    requires call.Wait? && t <= call.now && call.cost >= 0
    ensures Tracks(Step(l, call, budget, decay),
                   adm + if Admits(l, call, budget, decay) then [Admission(call.now, call.cost)] else [],
                   call.now, start, decay)
  {
    TracksDecay(l, adm, t, call.now, start, decay);
    if Admits(l, call, budget, decay) {
      PeakAdmits(Decayed(l.counter, call.now, decay).current, adm, Admission(call.now, call.cost), start, decay);
    } else {
      assert adm + [] == adm;
    }
  }

  /**
   Over every timed run the counter is the largest, over all earlier admissions, of the cost admitted since
   less the ticks since; and it never leaves the grid laid at construction.
   */
  lemma {:induction false} CounterIsPeak(calls: seq<Call>, start: int, budget: int, decay: int)
    requires decay > 0 && Timed(calls, start)
    ensures var l := Limiter(Counter(0, start), None);
            Tracks(Run(l, calls, budget, decay), Admitted(l, calls, budget, decay),
                   LastWait(calls, start), start, decay)
  {
    var l := Limiter(Counter(0, start), None);
    if calls == [] {
      DivUnique(0, decay, 0);
    } else {
      var n := |calls| - 1;
      var call := calls[n];
      CounterIsPeak(calls[..n], start, budget, decay);
      if call.Wait? {
        LastWaitBefore(calls[..n], start, call.now);
        StepTracks(Run(l, calls[..n], budget, decay), Admitted(l, calls[..n], budget, decay),
                   LastWait(calls[..n], start), call, start, budget, decay);
      } else {
        assert Admitted(l, calls[..n], budget, decay) + [] == Admitted(l, calls[..n], budget, decay);
      }
    }
  }

  /** When the last pause imposed by the venue ends, if there was one. */
  function PauseEnd(calls: seq<Call>): Option<int>
  {
    if calls == [] then None
    else
      var last := calls[|calls| - 1];
      if last.Backoff? then Some(last.now + last.duration) else PauseEnd(calls[..|calls| - 1])
  }

  lemma {:induction false} PauseIsKept(calls: seq<Call>, start: int, budget: int, decay: int)
    requires decay > 0
    ensures Run(Limiter(Counter(0, start), None), calls, budget, decay).backoff == PauseEnd(calls)
  {
    if calls != [] {
      PauseIsKept(calls[..|calls| - 1], start, budget, decay);
    }
  }

  lemma {:induction false} PauseEndIs(before: seq<Call>, pause: Call, after: seq<Call>)
    requires pause.Backoff? && forall c :: c in after ==> c.Wait?
    ensures PauseEnd(before + [pause] + after) == Some(pause.now + pause.duration)
  {
    var all := before + [pause] + after;
    if after == [] {
      assert all == before + [pause];
    } else {
      assert all[..|all| - 1] == before + [pause] + after[..|after| - 1] && all[|all| - 1] == after[|after| - 1];
      assert after[|after| - 1] in after;
      PauseEndIs(before, pause, after[..|after| - 1]);
    }
  }

  /** After a backoff of some duration, until the next one, every request read before it is over is refused. */
  lemma PauseHolds(before: seq<Call>, pause: Call, after: seq<Call>, call: Call, start: int, budget: int, decay: int)
    requires decay > 0 && pause.Backoff? && (forall c :: c in after ==> c.Wait?)
    requires call.Wait? && call.later < pause.now + pause.duration
    ensures !Admits(Run(Limiter(Counter(0, start), None), before + [pause] + after, budget, decay), call, budget, decay)
  {
    PauseIsKept(before + [pause] + after, start, budget, decay);
    PauseEndIs(before, pause, after);
  }

  /**
   Exactly which requests pass. After any run, a request of cost `c` is admitted if and only if it is read no
   earlier than the last pause ends, `c` alone fits the budget and, for every earlier admission, the cost
   admitted from it on plus `c` is at most the budget plus the grid ticks since.
   */
  lemma AdmissionExact(calls: seq<Call>, call: Call, start: int, budget: int, decay: int)
    requires decay > 0 && Timed(calls + [call], start) && call.Wait?
    ensures var l := Limiter(Counter(0, start), None);
            var adm := Admitted(l, calls, budget, decay);
            Admits(Run(l, calls, budget, decay), call, budget, decay)
            <==> && (PauseEnd(calls).Some? ==> PauseEnd(calls).value <= call.later)
                 && Fits(adm, Grid(call.now, start, decay), call.cost, start, budget, decay)
  {
    PauseIsKept(calls, start, budget, decay);
    var l := Limiter(Counter(0, start), None);
    var before := Run(l, calls, budget, decay);
    var x := Decayed(before.counter, call.now, decay).current;
    TimedPrefix(calls, call, start);
    TracksUntil(calls, call.now, start, budget, decay);
    assert Admits(before, call, budget, decay)
           <==> (PauseEnd(calls).Some? ==> PauseEnd(calls).value <= call.later) && x + call.cost <= budget;
    PeakDecides(x, Admitted(l, calls, budget, decay), Grid(call.now, start, decay), call.cost, start, budget, decay);
  }

  /** A cost fits alone, and together with all that was admitted since any earlier admission. */
  predicate Fits(adm: seq<Admission>, tick: int, cost: int, start: int, budget: int, decay: int)
    requires decay > 0
  {
    && cost <= budget
    && forall j :: 0 <= j < |adm| ==>
         CostFrom(adm, j) + cost <= budget + (tick - Grid(adm[j].time, start, decay))
  }

  lemma TimedPrefix(calls: seq<Call>, call: Call, start: int)
    requires Timed(calls + [call], start)
    ensures Timed(calls, start) && start <= call.now && (call.Wait? ==> call.cost >= 0)
    ensures forall i :: 0 <= i < |calls| ==> calls[i].now <= call.now
  {
    var all := calls + [call];
    assert all[|calls|] == call;
    assert forall i :: 0 <= i < |calls| ==> all[i] == calls[i];
  }

  /** What the counter would read at a later time, if asked. */
  lemma TracksUntil(calls: seq<Call>, t: int, start: int, budget: int, decay: int)
    requires decay > 0 && Timed(calls, start) && start <= t && forall i :: 0 <= i < |calls| ==> calls[i].now <= t
    ensures var l := Limiter(Counter(0, start), None);
            var before := Run(l, calls, budget, decay);
            Tracks(before.(counter := Decayed(before.counter, t, decay)), Admitted(l, calls, budget, decay),
                   t, start, decay)
  {
    var l := Limiter(Counter(0, start), None);
    CounterIsPeak(calls, start, budget, decay);
    LastWaitBefore(calls, start, t);
    TracksDecay(Run(l, calls, budget, decay), Admitted(l, calls, budget, decay),
                LastWait(calls, start), t, start, decay);
  }

  lemma PeakDecides(x: int, adm: seq<Admission>, tick: int, cost: int, start: int, budget: int, decay: int)
    requires decay > 0 && cost >= 0 && Peak(x, adm, tick, start, decay)
    ensures x + cost <= budget <==> Fits(adm, tick, cost, start, budget, decay)
  {
    if x + cost <= budget {
      forall j | 0 <= j < |adm|
        ensures CostFrom(adm, j) + cost <= budget + (tick - Grid(adm[j].time, start, decay))
      {
        assert Excess(adm, j, tick, start, decay) <= x;
      }
    } else if x > 0 {
      var j :| 0 <= j < |adm| && Excess(adm, j, tick, start, decay) == x;
      assert CostFrom(adm, j) + cost - (tick - Grid(adm[j].time, start, decay)) == x + cost;
    }
  }

  // ---- How much gets through ----

  predicate Ordered(adm: seq<Admission>)
  {
    && (forall i, j :: 0 <= i < j < |adm| ==> adm[i].time <= adm[j].time)
    && (forall i :: 0 <= i < |adm| ==> adm[i].cost >= 0)
  }

  /** Any consecutive admissions cost at most the budget plus the grid ticks they span. */
  ghost predicate Paced(adm: seq<Admission>, start: int, budget: int, decay: int)
    requires decay > 0
  {
    forall i, k :: 0 <= i <= k < |adm| ==>
      CostFrom(adm[..k + 1], i) <= budget + Grid(adm[k].time, start, decay) - Grid(adm[i].time, start, decay)
  }

  lemma PacedGrows(adm: seq<Admission>, a: Admission, x: int, start: int, budget: int, decay: int)
    requires decay > 0 && Paced(adm, start, budget, decay)
    requires x <= budget && Peak(x, adm + [a], Grid(a.time, start, decay), start, decay)
    ensures Paced(adm + [a], start, budget, decay)
  {
    var more := adm + [a];
    forall i, k | 0 <= i <= k < |more|
      ensures CostFrom(more[..k + 1], i) <= budget + Grid(more[k].time, start, decay) - Grid(more[i].time, start, decay)
    {
      if k < |adm| {
        assert more[..k + 1] == adm[..k + 1];
      } else {
        assert more[..k + 1] == more;
        assert Excess(more, i, Grid(a.time, start, decay), start, decay) <= x;
      }
    }
  }

  lemma PacedPrefix(adm: seq<Admission>, n: nat, start: int, budget: int, decay: int)
    requires decay > 0 && n <= |adm| && Paced(adm, start, budget, decay)
    ensures Paced(adm[..n], start, budget, decay)
  {
    forall i, k | 0 <= i <= k < n
      ensures CostFrom(adm[..n][..k + 1], i)
              <= budget + Grid(adm[k].time, start, decay) - Grid(adm[i].time, start, decay)
    {
      assert adm[..n][..k + 1] == adm[..k + 1];
    }
  }

  lemma {:induction false} RunIsPaced(calls: seq<Call>, start: int, budget: int, decay: int)
    requires decay > 0 && Timed(calls, start)
    ensures Paced(Admitted(Limiter(Counter(0, start), None), calls, budget, decay), start, budget, decay)
  {
    if calls != [] {
      var l := Limiter(Counter(0, start), None);
      var n := |calls| - 1;
      var adm := Admitted(l, calls[..n], budget, decay);
      RunIsPaced(calls[..n], start, budget, decay);
      if Admits(Run(l, calls[..n], budget, decay), calls[n], budget, decay) {
        CounterIsPeak(calls, start, budget, decay);
        PacedGrows(adm, Admission(calls[n].now, calls[n].cost),
                   Run(l, calls, budget, decay).counter.current, start, budget, decay);
      } else {
        assert adm + [] == adm;
      }
    }
  }

  lemma OrderedOneMore(adm: seq<Admission>, a: Admission)
    requires Ordered(adm) && a.cost >= 0 && forall i :: 0 <= i < |adm| ==> adm[i].time <= a.time
    ensures Ordered(adm + [a])
  {
  }

  lemma {:induction false} RunIsOrdered(l: Limiter, calls: seq<Call>, start: int, budget: int, decay: int)
    requires decay > 0 && Timed(calls, start)
    ensures var adm := Admitted(l, calls, budget, decay);
            Ordered(adm) && forall i :: 0 <= i < |adm| ==> calls != [] && adm[i].time <= calls[|calls| - 1].now
  {
    if calls != [] {
      var n := |calls| - 1;
      RunIsOrdered(l, calls[..n], start, budget, decay);
      var adm := Admitted(l, calls[..n], budget, decay);
      if Admits(Run(l, calls[..n], budget, decay), calls[n], budget, decay) {
        OrderedOneMore(adm, Admission(calls[n].now, calls[n].cost));
      } else {
        assert adm + [] == adm;
      }
    }
  }

  /** The cost admitted at times from `a` to `b`. */
  function CostWithin(adm: seq<Admission>, a: int, b: int): int
  {
    if adm == [] then 0
    else
      var last := adm[|adm| - 1];
      CostWithin(adm[..|adm| - 1], a, b) + if a <= last.time <= b then last.cost else 0
  }

  lemma {:induction false} NothingBefore(adm: seq<Admission>, a: int, b: int)
    requires forall i :: 0 <= i < |adm| ==> adm[i].time < a
    ensures CostWithin(adm, a, b) == 0
  {
    if adm != [] {
      NothingBefore(adm[..|adm| - 1], a, b);
    }
  }

  /** If the last admission is no later than `b`, those from `a` on are a tail of the trace. */
  lemma {:induction false} WithinIsTail(adm: seq<Admission>, a: int, b: int) returns (i: nat)
    requires Ordered(adm) && forall k :: 0 <= k < |adm| ==> adm[k].time <= b
    ensures i <= |adm| && (i < |adm| ==> a <= adm[i].time) && CostWithin(adm, a, b) == CostFrom(adm, i)
  {
    if adm == [] || adm[|adm| - 1].time < a {
      NothingBefore(adm, a, b);
      i := |adm|;
    } else {
      i := WithinIsTail(adm[..|adm| - 1], a, b);
    }
  }

  lemma PacedTail(adm: seq<Admission>, i: nat, start: int, budget: int, decay: int, a: int, b: int)
    requires decay > 0 && i < |adm| && Paced(adm, start, budget, decay)
    requires a <= adm[i].time && adm[|adm| - 1].time <= b
    ensures CostFrom(adm, i) <= budget + Grid(b, start, decay) - Grid(a, start, decay)
  {
    var n := |adm| - 1;
    assert adm[..n + 1] == adm;
    DivMonotone(a - start, adm[i].time - start, decay);
    DivMonotone(adm[n].time - start, b - start, decay);
  }

  lemma {:induction false} PacedWithin(adm: seq<Admission>, start: int, budget: int, decay: int, a: int, b: int)
    requires decay > 0 && a <= b && Ordered(adm) && Paced(adm, start, budget, decay)
    ensures CostWithin(adm, a, b) == 0
            || CostWithin(adm, a, b) <= budget + Grid(b, start, decay) - Grid(a, start, decay)
  {
    if adm != [] {
      var n := |adm| - 1;
      if adm[n].time > b {
        PacedPrefix(adm, n, start, budget, decay);
        PacedWithin(adm[..n], start, budget, decay, a, b);
      } else {
        var i := WithinIsTail(adm, a, b);
        if i <= n {
          PacedTail(adm, i, start, budget, decay, a, b);
        }
      }
    }
  }

  /**
   The leaky-bucket bound, whatever calls and refusals interleave: from construction to `b` at most the
   budget and one unit per whole decay interval; in any interval at most one unit more than that.
   */
  lemma LeakyBucketBound(calls: seq<Call>, start: int, budget: int, decay: int, a: int, b: int)
    requires decay > 0 && Timed(calls, start) && a <= b
    ensures var adm := Admitted(Limiter(Counter(0, start), None), calls, budget, decay);
            && (CostWithin(adm, a, b) == 0 || CostWithin(adm, a, b) <= budget + (b - a) / decay + 1)
            && (a == start && CostWithin(adm, a, b) != 0 ==> CostWithin(adm, a, b) <= budget + (b - a) / decay)
  {
    var adm := Admitted(Limiter(Counter(0, start), None), calls, budget, decay);
    RunIsPaced(calls, start, budget, decay);
    RunIsOrdered(Limiter(Counter(0, start), None), calls, start, budget, decay);
    PacedWithin(adm, start, budget, decay, a, b);
    DivDifference(a - start, b - start, decay);
    DivUnique(0, decay, 0);
  }

  /** The extra unit is real: a full budget just before a tick and one more just after it. */
  lemma LeakyBucketBoundIsTight(start: int, budget: int, decay: int)
    requires budget >= 1 && decay >= 2
    ensures var a, b := start + decay - 1, start + decay;
            var calls := [Call.Wait(a, a, budget), Call.Wait(b, b, 1)];
            var adm := Admitted(Limiter(Counter(0, start), None), calls, budget, decay);
            Timed(calls, start) && CostWithin(adm, a, b) == budget + (b - a) / decay + 1
  {
    var a, b := start + decay - 1, start + decay;
    var l := Limiter(Counter(0, start), None);
    var calls := [Call.Wait(a, a, budget), Call.Wait(b, b, 1)];
    DivUnique(decay - 1, decay, 0);
    DivUnique(decay, decay, 1);
    DivUnique(1, decay, 0);
    assert calls[..1] == [calls[0]] && calls[..1][..0] == [];
    var full := Limiter(Counter(budget, start), None);
    assert Step(l, calls[0], budget, decay) == full && Admits(l, calls[0], budget, decay);
    assert Decayed(full.counter, b, decay).current == budget - 1;
    assert Run(l, calls[..1], budget, decay) == full;
    var first, second := Admission(a, budget), Admission(b, 1);
    var adm := Admitted(l, calls, budget, decay);
    assert Admitted(l, calls[..1], budget, decay) == [first];
    assert adm == [first] + [second];
    TwoAdmissions(first, second, a, b);
  }

  lemma TwoAdmissions(first: Admission, second: Admission, a: int, b: int)
    requires a <= first.time <= b && a <= second.time <= b
    ensures CostWithin([first] + [second], a, b) == first.cost + second.cost
  {
    assert ([first] + [second])[..1] == [first] && [first][..0] == [];
    assert CostWithin([first], a, b) == first.cost;
  }

  // ---- When to try again ----

  /** Requests that are refused do not move the counter off the course it would have taken alone. */
  lemma {:induction false} QuietRun(l: Limiter, calls: seq<Call>, u: int, budget: int, decay: int)
    requires decay > 0 && Admitted(l, calls, budget, decay) == []
    requires forall i :: 0 <= i < |calls| ==> calls[i].now <= u
    ensures Decayed(Run(l, calls, budget, decay).counter, u, decay) == Decayed(l.counter, u, decay)
  {
    if calls != [] {
      var n := |calls| - 1;
      QuietRun(l, calls[..n], u, budget, decay);
      if calls[n].Wait? {
        DecayInTwoSteps(Run(l, calls[..n], budget, decay).counter, calls[n].now, u, decay);
      }
    }
  }

  /**
   After a refusal for lack of budget, with the counter at `v`, and if nothing else is admitted, the same
   request passes exactly from the `(v + cost - budget)`-th following tick on (once no backoff holds it).
   */
  lemma EarliestRetry(l: Limiter, refused: Call, others: seq<Call>, retry: Call, budget: int, decay: int)
    requires decay > 0 && refused.Wait? && retry.Wait? && retry.cost == refused.cost <= budget
    requires !Admits(l, refused, budget, decay) && !Blocked(l.backoff, refused.later)
    requires var after := Step(l, refused, budget, decay);
             && Admitted(after, others, budget, decay) == []
             && !Blocked(Run(after, others, budget, decay).backoff, retry.later)
    requires refused.now <= retry.now && forall i :: 0 <= i < |others| ==> others[i].now <= retry.now
    ensures var after := Step(l, refused, budget, decay);
            var v := after.counter.current;
            && v + refused.cost > budget
            && (Admits(Run(after, others, budget, decay), retry, budget, decay)
                <==> Ticks(after.counter, retry.now, decay) >= v + refused.cost - budget)
  {
    var after := Step(l, refused, budget, decay);
    QuietRun(after, others, retry.now, budget, decay);
  }
}
