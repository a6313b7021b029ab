/**
 The two fixed-window rate limiters, weights per minute and requests per second, and the one window
 machine both of them refine. Every reading of the clock is an input.
 */
module WindowLimiters {
  import opened Wrappers
  import opened Backoffs
  import opened Division

  /** What has been used of the window that began at `start`. */
  datatype Window = Window(used: int, start: int)

  /** A window ends when a request finds it `width` old; the next begins with that request. */
  function Rolled(w: Window, now: int, width: int): Window
  {
    if now - w.start >= width then Window(0, now) else w
  }

  // ---- Weights ----

  datatype Weighted = Weighted(window: Window, budget: int, backoff: Option<int>)

  datatype WeightedCall =
    | Wait(now: int, later: int, weight: int)
    | UpdateUsed(used: int)
    | Backoff(at: int, duration: int)
    | SetBudget(budget: int)

  predicate WeightedAdmits(l: Weighted, call: WeightedCall, width: int)
  {
    && call.Wait?
    && !Blocked(l.backoff, call.later)
    && Rolled(l.window, call.now, width).used + call.weight <= l.budget
  }

  function WeightedStep(l: Weighted, call: WeightedCall, width: int): Weighted
  {
    match call
    case Wait(now, _, weight) =>
      var w := Rolled(l.window, now, width);
      l.(window := if WeightedAdmits(l, call, width) then w.(used := w.used + weight) else w)
    case UpdateUsed(used) => l.(window := l.window.(used := used))
    case Backoff(at, duration) => l.(backoff := Some(at + duration))
    case SetBudget(budget) => l.(budget := budget)
  }

  class WeightedLimiter {
    const refill: int
    var budget: int
    var used: int
    var lastFill: int
    var backoff: Option<int>

    function State(): Weighted
      reads this
    {
      Weighted(Window(used, lastFill), budget, backoff)
    }

    constructor (budget: int, now: int)
      ensures refill == 60_000_000_000
      ensures State() == Weighted(Window(0, now), budget, None)
    {
      refill := 60_000_000_000;
      this.budget, used, lastFill, backoff := budget, 0, now, None;
    }

    method Replenish(now: int)
      modifies this`used, this`lastFill
      ensures State() == old(State()).(window := Rolled(old(State()).window, now, refill))
    {
      if now - lastFill >= refill {
        used := 0;
        lastFill := now;
      }
    }

    method Wait(now: int, later: int, weight: int) returns (admitted: bool)
      modifies this`used, this`lastFill
      ensures admitted <==> WeightedAdmits(old(State()), WeightedCall.Wait(now, later, weight), refill)
      ensures State() == WeightedStep(old(State()), WeightedCall.Wait(now, later, weight), refill)
    {
      Replenish(now);
      if backoff.Some? && later < backoff.value {
        return false;
      }
      if used + weight > budget {
        return false;
      }
      used := used + weight;
      return true;
    }

    /** The venue reports what it has counted. */
    method UpdateUsed(reported: int)
      modifies this`used
      ensures State() == WeightedStep(old(State()), WeightedCall.UpdateUsed(reported), refill)
    {
      used := reported;
    }

    method Backoff(at: int, duration: int)
      modifies this`backoff
      ensures State() == WeightedStep(old(State()), WeightedCall.Backoff(at, duration), refill)
    {
      backoff := Some(at + duration);
    }

    method SetBudget(b: int)
      modifies this`budget
      ensures State() == WeightedStep(old(State()), WeightedCall.SetBudget(b), refill)
    {
      budget := b;
    }
  }

  // ---- Requests per second ----

  datatype Rps = Rps(window: Window, backoff: Option<int>)

  datatype RpsCall = Request(now: int) | Hold(at: int, duration: int)

  predicate RpsAdmits(l: Rps, call: RpsCall, limit: int, width: int)
  {
    && call.Request?
    && !Blocked(l.backoff, call.now)
    && Rolled(l.window, call.now, width).used < limit
  }

  /** During a backoff nothing happens at all: the window is not even looked at. */
  function RpsStep(l: Rps, call: RpsCall, limit: int, width: int): Rps
  {
    match call
    case Hold(at, duration) => l.(backoff := Some(at + duration))
    case Request(now) =>
      if Blocked(l.backoff, now) then l
      else
        var w := Rolled(l.window, now, width);
        l.(window := if w.used < limit then w.(used := w.used + 1) else w)
  }

  class RPSLimiter {
    const limit: int
    const window: int
    var count: int
    var start: int
    var backoff: Option<int>

    function State(): Rps
      reads this
    {
      Rps(Window(count, start), backoff)
    }

    constructor (rps: int, now: int)
      ensures limit == rps && window == 1_000_000_000
      ensures State() == Rps(Window(0, now), None)
    {
      limit, window := rps, 1_000_000_000;
      count, start, backoff := 0, now, None;
    }

    method Wait(now: int) returns (admitted: bool)
      modifies this`count, this`start
      ensures admitted <==> RpsAdmits(old(State()), Request(now), limit, window)
      ensures State() == RpsStep(old(State()), Request(now), limit, window)
    {
      if backoff.Some? && now < backoff.value {
        return false;
      }
      if now - start >= window {
        count := 0;
        start := now;
      }
      if count >= limit {
        return false;
      }
      count := count + 1;
      return true;
    }

    method Backoff(at: int, duration: int)
      modifies this`backoff
      ensures State() == RpsStep(old(State()), Hold(at, duration), limit, window)
    {
      backoff := Some(at + duration);
    }
  }

  // ---- The window machine, with its history ----

  datatype Charge = Charge(time: int, cost: int, window: int)

  /** `starts` are the beginnings of all windows so far; a charge remembers the window it fell into. */
  datatype Meter = Meter(current: Window, starts: seq<int>, charges: seq<Charge>)

  function Opened(w: Window): Meter
  {
    Meter(w, [w.start], [])
  }

  function Roll(m: Meter, now: int, width: int): Meter
  {
    if now - m.current.start >= width then Meter(Window(0, now), m.starts + [now], m.charges) else m
  }

  /** One request: roll if due, then charge if the limiter lets it through. */
  function Attempt(m: Meter, now: int, admit: bool, cost: int, width: int): Meter
  {
    var r := Roll(m, now, width);
    if !admit then r
    else Meter(r.current.(used := r.current.used + cost), r.starts, r.charges + [Charge(now, cost, |r.starts| - 1)])
  }

  function CostInWindows(charges: seq<Charge>, lo: int, hi: int): int
  {
    if charges == [] then 0
    else
      var last := charges[|charges| - 1];
      CostInWindows(charges[..|charges| - 1], lo, hi) + if lo <= last.window <= hi then last.cost else 0
  }

  function CostWithin(charges: seq<Charge>, a: int, b: int): int
  {
    if charges == [] then 0
    else
      var last := charges[|charges| - 1];
      CostWithin(charges[..|charges| - 1], a, b) + if a <= last.time <= b then last.cost else 0
  }

  /** What may be charged in one window; a negative limit admits nothing. */
  function Cap(limit: int): nat
  {
    if limit < 0 then 0 else limit
  }

  predicate WellSpaced(starts: seq<int>, width: int)
  {
    starts != [] && forall i :: 0 < i < |starts| ==> starts[i] - starts[i - 1] >= width
  }

  /** Each charge lies in the window it remembers. */
  predicate Placed(charges: seq<Charge>, starts: seq<int>, width: int)
  {
    forall i :: 0 <= i < |charges| ==>
      && 0 <= charges[i].window < |starts| && charges[i].cost >= 0
      && starts[charges[i].window] <= charges[i].time < starts[charges[i].window] + width
  }

  /** What was let through in the current window. */
  function Charged(m: Meter): int
  {
    CostInWindows(m.charges, |m.starts| - 1, |m.starts| - 1)
  }

  /** With this count the limiter believes in no more room than the current window has. */
  predicate Room(m: Meter, used: int, limit: int)
  {
    limit - used <= Cap(limit) - Charged(m)
  }

  /** No window charges more than the limit. */
  predicate Capped(m: Meter, limit: int)
  {
    forall w :: 0 <= w < |m.starts| ==> CostInWindows(m.charges, w, w) <= Cap(limit)
  }

  ghost predicate Metered(m: Meter, now: int, limit: int, width: int)
  {
    && WellSpaced(m.starts, width) && m.current.start == m.starts[|m.starts| - 1] <= now
    && Placed(m.charges, m.starts, width)
    && Capped(m, limit) && Room(m, m.current.used, limit)
  }

  lemma {:induction false} NoChargeYet(charges: seq<Charge>, w: int)
    requires forall i :: 0 <= i < |charges| ==> charges[i].window < w
    ensures CostInWindows(charges, w, w) == 0
  {
    if charges != [] {
      NoChargeYet(charges[..|charges| - 1], w);
    }
  }

  lemma RollKeeps(m: Meter, t: int, now: int, limit: int, width: int)
    requires width > 0 && t <= now && Metered(m, t, limit, width)
    ensures Metered(Roll(m, now, width), now, limit, width)
    ensures now < Roll(m, now, width).current.start + width
    ensures Roll(m, now, width).current == Rolled(m.current, now, width)
  {
    var r := Roll(m, now, width);
    if r != m {
      NoChargeYet(m.charges, |m.starts|);
      assert Placed(m.charges, r.starts, width);
    }
  }

  lemma ChargeGrows(charges: seq<Charge>, c: Charge, w: int)
    ensures CostInWindows(charges + [c], w, w) == CostInWindows(charges, w, w) + if c.window == w then c.cost else 0
  {
    assert (charges + [c])[..|charges|] == charges;
  }

  lemma AttemptKeeps(m: Meter, t: int, now: int, admit: bool, cost: int, limit: int, width: int)
    requires width > 0 && t <= now && Metered(m, t, limit, width)
    requires admit ==> cost >= 0 && Rolled(m.current, now, width).used + cost <= limit
    ensures Metered(Attempt(m, now, admit, cost, width), now, limit, width)
    ensures now < Attempt(m, now, admit, cost, width).current.start + width
  {
    RollKeeps(m, t, now, limit, width);
    if admit {
      ChargeKeeps(Roll(m, now, width), now, cost, limit, width);
    }
  }

  lemma ChargeKeeps(r: Meter, now: int, cost: int, limit: int, width: int)
    requires Metered(r, now, limit, width) && now < r.current.start + width
    requires cost >= 0 && r.current.used + cost <= limit
    ensures Metered(Meter(r.current.(used := r.current.used + cost), r.starts,
                          r.charges + [Charge(now, cost, |r.starts| - 1)]), now, limit, width)
  {
    var c := Charge(now, cost, |r.starts| - 1);
    forall w | 0 <= w < |r.starts|
      ensures CostInWindows(r.charges + [c], w, w) <= Cap(limit)
      ensures w == |r.starts| - 1 ==> CostInWindows(r.charges + [c], w, w) == Charged(r) + cost
    {
      ChargeGrows(r.charges, c, w);
    }
  }

  // ---- The bounds of the window machine ----

  lemma {:induction false} SplitWindows(charges: seq<Charge>, lo: int, hi: int)
    requires lo < hi
    ensures CostInWindows(charges, lo, hi) == CostInWindows(charges, lo, hi - 1) + CostInWindows(charges, hi, hi)
  {
    if charges != [] {
      SplitWindows(charges[..|charges| - 1], lo, hi);
    }
  }

  lemma {:induction false} WindowsBound(m: Meter, lo: int, hi: int, now: int, limit: int, width: int)
    requires Metered(m, now, limit, width) && 0 <= lo <= hi < |m.starts|
    ensures CostInWindows(m.charges, lo, hi) <= Cap(limit) * (hi - lo + 1)
    decreases hi - lo
  {
    if lo < hi {
      WindowsBound(m, lo, hi - 1, now, limit, width);
      SplitWindows(m.charges, lo, hi);
      assert Cap(limit) * (hi - lo) + Cap(limit) == Cap(limit) * (hi - lo + 1);
    }
  }

  lemma {:induction false} Apart(starts: seq<int>, i: int, j: int, width: int)
    requires WellSpaced(starts, width) && 0 <= i <= j < |starts|
    ensures starts[j] - starts[i] >= (j - i) * width
    decreases j - i
  {
    if i < j {
      Apart(starts, i, j - 1, width);
      assert (j - 1 - i) * width + width == (j - i) * width;
    }
  }

  lemma {:induction false} CoveredByWindows(charges: seq<Charge>, a: int, b: int, lo: int, hi: int)
    requires forall i :: 0 <= i < |charges| ==> charges[i].cost >= 0
    requires forall i :: 0 <= i < |charges| && a <= charges[i].time <= b ==> lo <= charges[i].window <= hi
    ensures CostWithin(charges, a, b) <= CostInWindows(charges, lo, hi)
  {
    if charges != [] {
      CoveredByWindows(charges[..|charges| - 1], a, b, lo, hi);
    }
  }

  lemma {:induction false} NoneWithin(charges: seq<Charge>, a: int, b: int)
    requires forall i :: 0 <= i < |charges| ==> !(a <= charges[i].time <= b)
    ensures CostWithin(charges, a, b) == 0
  {
    if charges != [] {
      NoneWithin(charges[..|charges| - 1], a, b);
    }
  }

  /** Windows of the first and of the last charge made from `a` to `b`. */
  predicate Span(charges: seq<Charge>, a: int, b: int, i: int, j: int)
  {
    && 0 <= i < |charges| && 0 <= j < |charges|
    && a <= charges[i].time <= b && a <= charges[j].time <= b
    && charges[i].window <= charges[j].window
    && forall k :: 0 <= k < |charges| && a <= charges[k].time <= b ==>
         charges[i].window <= charges[k].window <= charges[j].window
  }

  lemma {:induction false} SpanExists(charges: seq<Charge>, a: int, b: int) returns (i: int, j: int)
    requires exists k :: 0 <= k < |charges| && a <= charges[k].time <= b
    ensures Span(charges, a, b, i, j)
  {
    var n := |charges| - 1;
    if exists k :: 0 <= k < n && a <= charges[k].time <= b {
      assert exists k :: 0 <= k < n && a <= charges[..n][k].time <= b by {
        var k :| 0 <= k < n && a <= charges[k].time <= b;
        assert charges[..n][k] == charges[k];
      }
      i, j := SpanExists(charges[..n], a, b);
      if a <= charges[n].time <= b {
        if charges[n].window < charges[i].window {
          i := n;
        } else if charges[n].window > charges[j].window {
          j := n;
        }
      }
      forall k | 0 <= k < n
        ensures charges[..n][k] == charges[k]
      {
      }
    } else {
      i, j := n, n;
    }
  }

  lemma CapTimes(limit: int, m: int, n: int)
    requires m <= n
    ensures Cap(limit) * m <= Cap(limit) * n
  {
    assert Cap(limit) * (n - m) >= 0;
  }

  /**
   What is charged from `a` to `b` is at most one full limit for every window that interval can meet: those
   that fit in it and two more (so two in all if none fits), or one more if it begins with the first window.
   */
  predicate Bounded(charges: seq<Charge>, first: int, limit: int, width: int, a: int, b: int)
    requires width > 0
  {
    && CostWithin(charges, a, b) <= Cap(limit) * ((b - a) / width + 2)
    && (b - a < width ==> CostWithin(charges, a, b) <= 2 * Cap(limit))
    && (a == first ==> CostWithin(charges, a, b) <= Cap(limit) * ((b - a) / width + 1))
  }

  lemma MeterIsBounded(m: Meter, now: int, limit: int, width: int, a: int, b: int)
    requires width > 0 && a <= b && Metered(m, now, limit, width)
    ensures Bounded(m.charges, m.starts[0], limit, width, a, b)
  {
    MeterBound(m, now, limit, width, a, b);
    if b - a < width {
      DivUnique(b - a, width, 0);
    }
  }

  lemma SpannedCost(m: Meter, now: int, limit: int, width: int, a: int, b: int, i: int, j: int, n: int)
    requires Metered(m, now, limit, width) && Span(m.charges, a, b, i, j)
    requires m.charges[j].window - m.charges[i].window + 1 <= n
    ensures CostWithin(m.charges, a, b) <= Cap(limit) * n
  {
    var lo, hi := m.charges[i].window, m.charges[j].window;
    CoveredByWindows(m.charges, a, b, lo, hi);
    WindowsBound(m, lo, hi, now, limit, width);
    CapTimes(limit, hi - lo + 1, n);
  }

  lemma {:induction false} MeterBound(m: Meter, now: int, limit: int, width: int, a: int, b: int)
    requires width > 0 && a <= b && Metered(m, now, limit, width)
    ensures CostWithin(m.charges, a, b) <= Cap(limit) * ((b - a) / width + 2)
    ensures a == m.starts[0] ==> CostWithin(m.charges, a, b) <= Cap(limit) * ((b - a) / width + 1)
  {
    DivNonNegative(b - a, width);
    if exists k :: 0 <= k < |m.charges| && a <= m.charges[k].time <= b {
      var i, j := SpanExists(m.charges, a, b);
      WindowsMet(m.starts, m.charges[i].window, m.charges[j].window, width, a, b);
      SpannedCost(m, now, limit, width, a, b, i, j, (b - a) / width + 2);
      if a == m.starts[0] {
        SpannedCost(m, now, limit, width, a, b, i, j, (b - a) / width + 1);
      }
    } else {
      NoneWithin(m.charges, a, b);
      CapTimes(limit, 0, (b - a) / width + 1);
      CapTimes(limit, 0, (b - a) / width + 2);
    }
  }

  /** How many windows an interval meets that begins before the end of one and ends after another began. */
  lemma WindowsMet(starts: seq<int>, lo: int, hi: int, width: int, a: int, b: int)
    requires width > 0 && WellSpaced(starts, width) && 0 <= lo <= hi < |starts|
    requires a < starts[lo] + width && starts[hi] <= b && a <= b
    ensures hi - lo + 1 <= (b - a) / width + 2
    ensures a == starts[0] ==> hi - lo + 1 <= (b - a) / width + 1
  {
    Apart(starts, lo, hi, width);
    assert (hi - lo - 1) * width == (hi - lo) * width - width;
    AtMostWhole(hi - lo - 1, b - a, width);
    if a == starts[0] {
      Apart(starts, 0, hi, width);
      AtMostWhole(hi, b - a, width);
    }
  }

  lemma AtMostWhole(k: int, x: int, d: int)
    requires d > 0 && k * d <= x
    ensures k <= x / d
  {
    DivMonotone(k * d, x, d);
    DivUnique(k * d, d, k);
  }

  // ---- Runs of the weighted limiter ----

  function WeightedRun(l: Weighted, calls: seq<WeightedCall>, width: int): Weighted
  {
    if calls == [] then l
    else WeightedStep(WeightedRun(l, calls[..|calls| - 1], width), calls[|calls| - 1], width)
  }

  function WeightedMeter(l: Weighted, calls: seq<WeightedCall>, width: int): Meter
  {
    if calls == [] then Opened(l.window)
    else
      var n := |calls| - 1;
      var m := WeightedMeter(l, calls[..n], width);
      match calls[n]
      case Wait(now, _, weight) =>
        Attempt(m, now, WeightedAdmits(WeightedRun(l, calls[..n], width), calls[n], width), weight, width)
      case UpdateUsed(used) => m.(current := m.current.(used := used))
      case _ => m
  }

  /**
   The clock does not go back, weights are not negative, the budget stays, and no report by the venue, except
   perhaps the one at `exempt`, leaves more room than the current window has: for a budget that is not
   negative, it is not below what the limiter itself let through in that window.
   */
  predicate Fair(l: Weighted, calls: seq<WeightedCall>, width: int, exempt: int)
  {
    && (forall i :: 0 <= i < |calls| ==>
          match calls[i]
          case Wait(now, _, weight) => l.window.start <= now && weight >= 0
          case UpdateUsed(used) => i == exempt || Room(WeightedMeter(l, calls[..i], width), used, l.budget)
          case Backoff(_, _) => true
          case SetBudget(_) => false)
    && (forall i, j :: 0 <= i < j < |calls| && calls[i].Wait? && calls[j].Wait? ==> calls[i].now <= calls[j].now)
  }

  const NONE: int := -1

  lemma FairPrefix(l: Weighted, calls: seq<WeightedCall>, width: int, exempt: int)
    requires calls != [] && Fair(l, calls, width, exempt)
    ensures Fair(l, calls[..|calls| - 1], width, exempt)
  {
    var n := |calls| - 1;
    forall i | 0 <= i < n
      ensures calls[..n][..i] == calls[..i] && calls[..n][i] == calls[i]
    {
    }
  }

  /** A limiter that does not believe in more than its budget to begin with. */
  predicate Sane(l: Weighted)
  {
    Room(Opened(l.window), l.window.used, l.budget)
  }

  function LastWait(l: Weighted, calls: seq<WeightedCall>): int
  {
    if calls == [] then l.window.start
    else if calls[|calls| - 1].Wait? then calls[|calls| - 1].now
    else LastWait(l, calls[..|calls| - 1])
  }

  lemma {:induction false} LastWaitBefore(l: Weighted, calls: seq<WeightedCall>, t: int)
    requires l.window.start <= t && forall i :: 0 <= i < |calls| && calls[i].Wait? ==> calls[i].now <= t
    ensures LastWait(l, calls) <= t
  {
    if calls != [] && !calls[|calls| - 1].Wait? {
      LastWaitBefore(l, calls[..|calls| - 1], t);
    }
  }

  /** The meter is the limiter's own window with its history, and is sound at time `t`. */
  ghost predicate Follows(m: Meter, end: Weighted, l: Weighted, t: int, width: int)
  {
    && m.current == end.window && end.budget == l.budget && m.starts != [] && m.starts[0] == l.window.start
    && Metered(m, t, l.budget, width) && t < m.current.start + width
  }

  lemma WaitFollows(m: Meter, before: Weighted, l: Weighted, t: int, w: WeightedCall, width: int)
    requires width > 0 && w.Wait? && t <= w.now && w.weight >= 0 && Follows(m, before, l, t, width)
    ensures Follows(Attempt(m, w.now, WeightedAdmits(before, w, width), w.weight, width),
                    WeightedStep(before, w, width), l, w.now, width)
  {
    RollKeeps(m, t, w.now, l.budget, width);
    AttemptKeeps(m, t, w.now, WeightedAdmits(before, w, width), w.weight, l.budget, width);
  }

  lemma ReportFollows(m: Meter, before: Weighted, l: Weighted, t: int, used: int, width: int)
    requires Follows(m, before, l, t, width) && Room(m, used, l.budget)
    ensures Follows(m.(current := m.current.(used := used)), WeightedStep(before, UpdateUsed(used), width), l, t, width)
  {
  }

  /** The weighted limiter refines the window machine. */
  lemma {:induction false} WeightedIsMetered(l: Weighted, calls: seq<WeightedCall>, width: int)
    requires width > 0 && Fair(l, calls, width, NONE) && Sane(l)
    ensures Follows(WeightedMeter(l, calls, width), WeightedRun(l, calls, width), l, LastWait(l, calls), width)
  {
    if calls != [] {
      var n := |calls| - 1;
      FairPrefix(l, calls, width, NONE);
      WeightedIsMetered(l, calls[..n], width);
      var m, before := WeightedMeter(l, calls[..n], width), WeightedRun(l, calls[..n], width);
      match calls[n]
      case Wait(now, _, _) =>
        LastWaitBefore(l, calls[..n], now);
        WaitFollows(m, before, l, LastWait(l, calls[..n]), calls[n], width);
      case UpdateUsed(used) =>
        ReportFollows(m, before, l, LastWait(l, calls[..n]), used, width);
      case _ =>
    }
  }

  /**
   Whatever calls and refusals interleave, the weight let through in any interval is at most the budget
   times two more than the windows that fit in it: twice the budget in less than a window. From
   construction it is at most the budget for every window begun.
   */
  lemma WeightedBound(l: Weighted, calls: seq<WeightedCall>, width: int, a: int, b: int)
    requires width > 0 && Fair(l, calls, width, NONE) && Sane(l) && a <= b
    ensures Bounded(WeightedMeter(l, calls, width).charges, l.window.start, l.budget, width, a, b)
  {
    WeightedIsMetered(l, calls, width);
    MeterIsBounded(WeightedMeter(l, calls, width), LastWait(l, calls), l.budget, width, a, b);
  }

  // ---- Exactly which requests pass ----

  /** When the last pause ends, if there was one. */
  function PauseEnd(l: Weighted, calls: seq<WeightedCall>): Option<int>
  {
    if calls == [] then l.backoff
    else
      var last := calls[|calls| - 1];
      if last.Backoff? then Some(last.at + last.duration) else PauseEnd(l, calls[..|calls| - 1])
  }

  /** The budget set last. */
  function BudgetSet(l: Weighted, calls: seq<WeightedCall>): int
  {
    if calls == [] then l.budget
    else
      var last := calls[|calls| - 1];
      if last.SetBudget? then last.budget else BudgetSet(l, calls[..|calls| - 1])
  }

  /** The beginning of the current window: the last request that came when the one before was `width` old. */
  function Began(l: Weighted, calls: seq<WeightedCall>, width: int): int
  {
    if calls == [] then l.window.start
    else
      var last, before := calls[|calls| - 1], Began(l, calls[..|calls| - 1], width);
      if last.Wait? && last.now - before >= width then last.now else before
  }

  /** The count to start from, and the first call whose weight is to be added to it. */
  datatype Origin = Origin(count: int, from: nat)

  /** The last report by the venue or beginning of a window. */
  function OriginOf(l: Weighted, calls: seq<WeightedCall>, width: int): Origin
  {
    if calls == [] then Origin(l.window.used, 0)
    else
      var n := |calls| - 1;
      if calls[n].UpdateUsed? then Origin(calls[n].used, n + 1)
      else if calls[n].Wait? && calls[n].now - Began(l, calls[..n], width) >= width then Origin(0, n)
      else OriginOf(l, calls[..n], width)
  }

  /** The weight let through by the calls from `from` on. */
  function PassedFrom(l: Weighted, calls: seq<WeightedCall>, width: int, from: nat): int
  {
    if |calls| <= from then 0
    else
      var n := |calls| - 1;
      PassedFrom(l, calls[..n], width, from)
      + if calls[n].Wait? && WeightedAdmits(WeightedRun(l, calls[..n], width), calls[n], width)
        then calls[n].weight else 0
  }

  /** What has been counted: the report or the fresh window, and all that passed since. */
  function Counted(l: Weighted, calls: seq<WeightedCall>, width: int): int
  {
    var o := OriginOf(l, calls, width);
    o.count + PassedFrom(l, calls, width, o.from)
  }

  lemma {:induction false} OriginIsPast(l: Weighted, calls: seq<WeightedCall>, width: int)
    ensures OriginOf(l, calls, width).from <= |calls|
  {
    if calls != [] {
      OriginIsPast(l, calls[..|calls| - 1], width);
    }
  }

  lemma {:induction false} StateIsHistory(l: Weighted, calls: seq<WeightedCall>, width: int)
    ensures WeightedRun(l, calls, width)
            == Weighted(Window(Counted(l, calls, width), Began(l, calls, width)),
                        BudgetSet(l, calls), PauseEnd(l, calls))
  {
    if calls != [] {
      var n := |calls| - 1;
      StateIsHistory(l, calls[..n], width);
      OriginIsPast(l, calls[..n], width);
      assert PassedFrom(l, calls[..n], width, n) == 0 == PassedFrom(l, calls, width, n + 1);
    }
  }

  /**
   Exactly which requests pass, whatever calls went before and whatever the clock does: those read no earlier
   than the last pause ends whose weight fits the budget together with what was counted, or alone if the
   window is `width` old.
   */
  lemma WeightedAdmissionExact(l: Weighted, calls: seq<WeightedCall>, w: WeightedCall, width: int)
    requires w.Wait?
    ensures WeightedAdmits(WeightedRun(l, calls, width), w, width)
            <==> && (PauseEnd(l, calls).Some? ==> PauseEnd(l, calls).value <= w.later)
                 && w.weight + (if w.now - Began(l, calls, width) >= width then 0 else Counted(l, calls, width))
                    <= BudgetSet(l, calls)
  {
    StateIsHistory(l, calls, width);
  }

  lemma {:induction false} PauseEndIs(
      l: Weighted, before: seq<WeightedCall>, pause: WeightedCall, after: seq<WeightedCall>)
    requires pause.Backoff? && forall c :: c in after ==> !c.Backoff?
    ensures PauseEnd(l, before + [pause] + after) == Some(pause.at + pause.duration)
  {
    var all := before + [pause] + after;
    if after == [] {
      assert all == before + [pause];
    } else {
      assert all[..|all| - 1] == before + [pause] + after[..|after| - 1] && all[|all| - 1] == after[|after| - 1];
      assert after[|after| - 1] in after;
      PauseEndIs(l, before, pause, after[..|after| - 1]);
    }
  }

  /** After a backoff of some duration, until the next one, every request read before it is over is refused. */
  lemma PauseHolds(
      l: Weighted, before: seq<WeightedCall>, pause: WeightedCall, after: seq<WeightedCall>, w: WeightedCall,
      width: int)
    requires pause.Backoff? && (forall c :: c in after ==> !c.Backoff?)
    requires w.Wait? && w.later < pause.at + pause.duration
    ensures !WeightedAdmits(WeightedRun(l, before + [pause] + after, width), w, width)
  {
    PauseEndIs(l, before, pause, after);
    WeightedAdmissionExact(l, before + [pause] + after, w, width);
  }

  /** Only requests that are refused, and pauses. */
  predicate Quiet(l: Weighted, calls: seq<WeightedCall>, width: int)
  {
    forall i :: 0 <= i < |calls| ==>
      calls[i].Backoff? || (calls[i].Wait? && !WeightedAdmits(WeightedRun(l, calls[..i], width), calls[i], width))
  }

  /** Meanwhile the window stays, or one that is due is begun with nothing in it. */
  lemma {:induction false} QuietKeepsWindow(l: Weighted, calls: seq<WeightedCall>, width: int, until: int)
    requires width > 0 && Quiet(l, calls, width) && forall c :: c in calls && c.Wait? ==> c.now <= until
    ensures var w := WeightedRun(l, calls, width);
            && w.budget == l.budget
            && (w.window == l.window || (w.window.used == 0 && l.window.start + width <= w.window.start <= until))
  {
    if calls != [] {
      var n := |calls| - 1;
      forall i | 0 <= i < n
        ensures calls[..n][..i] == calls[..i] && calls[..n][i] == calls[i]
      {
      }
      QuietKeepsWindow(l, calls[..n], width, until);
    }
  }

  /**
   When to try again: after a refusal for lack of budget, and as long as nothing else passes, the same weight
   passes exactly from the end of the window on, if it fits the budget at all (and no pause holds it).
   */
  lemma WeightedRetry(l: Weighted, refused: WeightedCall, others: seq<WeightedCall>, retry: WeightedCall, width: int)
    requires width > 0 && refused.Wait? && retry.Wait? && retry.weight == refused.weight && refused.now <= retry.now
    requires !WeightedAdmits(l, refused, width) && (l.backoff.Some? ==> l.backoff.value <= refused.later)
    requires var after := WeightedStep(l, refused, width);
             && Quiet(after, others, width) && (forall c :: c in others && c.Wait? ==> c.now <= retry.now)
             && (PauseEnd(after, others).Some? ==> PauseEnd(after, others).value <= retry.later)
    ensures var after := WeightedStep(l, refused, width);
            WeightedAdmits(WeightedRun(after, others, width), retry, width)
            <==> refused.weight <= l.budget && after.window.start + width <= retry.now
  {
    var after := WeightedStep(l, refused, width);
    QuietKeepsWindow(after, others, width, retry.now);
    StateIsHistory(after, others, width);
  }

  // ---- Which reports keep the window to its limit ----

  lemma ExemptIsFair(l: Weighted, calls: seq<WeightedCall>, reported: int, more: seq<WeightedCall>, width: int)
    requires Room(WeightedMeter(l, calls, width), reported, l.budget)
    requires Fair(l, calls + [UpdateUsed(reported)] + more, width, |calls|)
    ensures Fair(l, calls + [UpdateUsed(reported)] + more, width, NONE)
  {
    assert (calls + [UpdateUsed(reported)] + more)[..|calls|] == calls;
  }

  /** A request at `now`, after any pause, for all the room the limiter believes in. */
  function TopUp(before: Weighted, now: int, reported: int): WeightedCall
  {
    Wait(now, if before.backoff.Some? then before.backoff.value else now, before.budget - reported)
  }

  /** After a report that leaves too much room, one request takes the window over the limit. */
  lemma ReportTooLow(l: Weighted, calls: seq<WeightedCall>, reported: int, width: int) returns (w: WeightedCall)
    requires width > 0 && Fair(l, calls, width, NONE) && Sane(l)
    requires !Room(WeightedMeter(l, calls, width), reported, l.budget)
    ensures Fair(l, calls + [UpdateUsed(reported)] + [w], width, |calls|)
    ensures !Capped(WeightedMeter(l, calls + [UpdateUsed(reported)] + [w], width), l.budget)
  {
    var before := WeightedRun(l, calls, width);
    w := TopUp(before, LastWait(l, calls), reported);
    WeightedIsMetered(l, calls, width);
    LowReportAdmits(WeightedMeter(l, calls, width), before, l, LastWait(l, calls), reported, width);
    LowReportIsFair(l, calls, reported, w, width);
    ReportThenWait(l, calls, reported, w, width);
  }

  lemma LowReportAdmits(m: Meter, before: Weighted, l: Weighted, now: int, reported: int, width: int)
    requires Follows(m, before, l, now, width) && !Room(m, reported, l.budget)
    ensures var w := TopUp(before, now, reported);
            && w.weight >= 0
            && !Capped(Attempt(m.(current := m.current.(used := reported)), now,
                               WeightedAdmits(WeightedStep(before, UpdateUsed(reported), width), w, width),
                               w.weight, width), l.budget)
  {
    LowReportCharges(m, reported, now, l.budget, width);
  }

  lemma LowReportCharges(m: Meter, reported: int, now: int, limit: int, width: int)
    requires Metered(m, now, limit, width) && now < m.current.start + width && !Room(m, reported, limit)
    ensures !Capped(Attempt(m.(current := m.current.(used := reported)), now, true, limit - reported, width), limit)
  {
    var w := |m.starts| - 1;
    ChargeGrows(m.charges, Charge(now, limit - reported, w), w);
  }

  lemma ReportThenWait(l: Weighted, calls: seq<WeightedCall>, reported: int, w: WeightedCall, width: int)
    requires w.Wait?
    ensures var m, before := WeightedMeter(l, calls, width), WeightedRun(l, calls, width);
            WeightedMeter(l, calls + [UpdateUsed(reported)] + [w], width)
            == Attempt(m.(current := m.current.(used := reported)), w.now,
                       WeightedAdmits(WeightedStep(before, UpdateUsed(reported), width), w, width), w.weight, width)
  {
    OneMoreReport(l, calls, reported, width);
    OneMoreWait(l, calls + [UpdateUsed(reported)], w, width);
  }

  lemma OneMoreReport(l: Weighted, calls: seq<WeightedCall>, reported: int, width: int)
    ensures var r := calls + [UpdateUsed(reported)];
            && WeightedRun(l, r, width) == WeightedStep(WeightedRun(l, calls, width), UpdateUsed(reported), width)
            && var m := WeightedMeter(l, calls, width);
               WeightedMeter(l, r, width) == m.(current := m.current.(used := reported))
  {
    assert (calls + [UpdateUsed(reported)])[..|calls|] == calls;
  }

  lemma {:induction false} LastWaitIsLast(l: Weighted, calls: seq<WeightedCall>, width: int, exempt: int)
    requires Fair(l, calls, width, exempt)
    ensures l.window.start <= LastWait(l, calls)
    ensures forall i :: 0 <= i < |calls| && calls[i].Wait? ==> calls[i].now <= LastWait(l, calls)
  {
    if calls != [] {
      FairPrefix(l, calls, width, exempt);
      LastWaitIsLast(l, calls[..|calls| - 1], width, exempt);
    }
  }

  lemma LowReportIsFair(l: Weighted, calls: seq<WeightedCall>, reported: int, w: WeightedCall, width: int)
    requires Fair(l, calls, width, NONE) && w.Wait? && w.now == LastWait(l, calls) && w.weight >= 0
    ensures Fair(l, calls + [UpdateUsed(reported)] + [w], width, |calls|)
  {
    var all := calls + [UpdateUsed(reported)] + [w];
    LastWaitIsLast(l, calls, width, NONE);
    forall i | 0 <= i < |calls|
      ensures all[..i] == calls[..i] && all[i] == calls[i]
    {
    }
  }

  /**
   After any fair run, a report by the venue keeps every window to the limit, however the run goes on, if
   and only if it leaves no more room than the window has.
   */
  lemma ReportExact(l: Weighted, calls: seq<WeightedCall>, reported: int, width: int)
    requires width > 0 && Fair(l, calls, width, NONE) && Sane(l)
    ensures (forall more: seq<WeightedCall> :: Fair(l, calls + [UpdateUsed(reported)] + more, width, |calls|) ==>
               Capped(WeightedMeter(l, calls + [UpdateUsed(reported)] + more, width), l.budget))
            <==> Room(WeightedMeter(l, calls, width), reported, l.budget)
  {
    if Room(WeightedMeter(l, calls, width), reported, l.budget) {
      forall more: seq<WeightedCall> | Fair(l, calls + [UpdateUsed(reported)] + more, width, |calls|)
        ensures Capped(WeightedMeter(l, calls + [UpdateUsed(reported)] + more, width), l.budget)
      {
        ExemptIsFair(l, calls, reported, more, width);
        WeightedIsMetered(l, calls + [UpdateUsed(reported)] + more, width);
      }
    } else {
      var w := ReportTooLow(l, calls, reported, width);
    }
  }

  // ---- Runs of the requests-per-second limiter ----

  function RpsRun(l: Rps, calls: seq<RpsCall>, limit: int, width: int): Rps
  {
    if calls == [] then l
    else RpsStep(RpsRun(l, calls[..|calls| - 1], limit, width), calls[|calls| - 1], limit, width)
  }

  function RpsMeter(l: Rps, calls: seq<RpsCall>, limit: int, width: int): Meter
  {
    if calls == [] then Opened(l.window)
    else
      var n := |calls| - 1;
      var m, before := RpsMeter(l, calls[..n], limit, width), RpsRun(l, calls[..n], limit, width);
      if calls[n].Hold? then m else RequestMeter(before, m, calls[n], limit, width)
  }

  predicate Forward(l: Rps, calls: seq<RpsCall>)
  {
    && (forall i :: 0 <= i < |calls| && calls[i].Request? ==> l.window.start <= calls[i].now)
    && (forall i, j :: 0 <= i < j < |calls| && calls[i].Request? && calls[j].Request? ==> calls[i].now <= calls[j].now)
  }

  function LastRequest(l: Rps, calls: seq<RpsCall>): int
  {
    if calls == [] then l.window.start
    else if calls[|calls| - 1].Request? then calls[|calls| - 1].now
    else LastRequest(l, calls[..|calls| - 1])
  }

  lemma {:induction false} LastRequestBefore(l: Rps, calls: seq<RpsCall>, t: int)
    requires l.window.start <= t && forall i :: 0 <= i < |calls| && calls[i].Request? ==> calls[i].now <= t
    ensures LastRequest(l, calls) <= t
  {
    if calls != [] && !calls[|calls| - 1].Request? {
      LastRequestBefore(l, calls[..|calls| - 1], t);
    }
  }

  function RequestMeter(l: Rps, m: Meter, call: RpsCall, limit: int, width: int): Meter
    requires call.Request?
  {
    if Blocked(l.backoff, call.now) then m
    else Attempt(m, call.now, RpsAdmits(l, call, limit, width), 1, width)
  }

  lemma RequestKeeps(l: Rps, m: Meter, t: int, call: RpsCall, limit: int, width: int)
    requires width > 0 && call.Request? && t <= call.now
    requires Metered(m, t, limit, width) && m.current == l.window
    ensures var m' := RequestMeter(l, m, call, limit, width);
            && Metered(m', call.now, limit, width) && m'.current == RpsStep(l, call, limit, width).window
            && m'.starts[0] == m.starts[0]
  {
    if !Blocked(l.backoff, call.now) {
      RollKeeps(m, t, call.now, limit, width);
      AttemptKeeps(m, t, call.now, RpsAdmits(l, call, limit, width), 1, limit, width);
    }
  }

  /** So does the requests-per-second limiter, although it looks at the backoff first. */
  lemma {:induction false} RpsIsMetered(l: Rps, calls: seq<RpsCall>, limit: int, width: int)
    requires width > 0 && Forward(l, calls) && Room(Opened(l.window), l.window.used, limit)
    ensures var m := RpsMeter(l, calls, limit, width);
            && m.current == RpsRun(l, calls, limit, width).window && m.starts != [] && m.starts[0] == l.window.start
            && Metered(m, LastRequest(l, calls), limit, width)
  {
    if calls != [] {
      var n := |calls| - 1;
      RpsIsMetered(l, calls[..n], limit, width);
      var m, before := RpsMeter(l, calls[..n], limit, width), RpsRun(l, calls[..n], limit, width);
      if calls[n].Request? {
        LastRequestBefore(l, calls[..n], calls[n].now);
        RequestKeeps(before, m, LastRequest(l, calls[..n]), calls[n], limit, width);
      }
    }
  }

  lemma RpsBound(l: Rps, calls: seq<RpsCall>, limit: int, width: int, a: int, b: int)
    requires width > 0 && Forward(l, calls) && Room(Opened(l.window), l.window.used, limit) && a <= b
    ensures Bounded(RpsMeter(l, calls, limit, width).charges, l.window.start, limit, width, a, b)
  {
    RpsIsMetered(l, calls, limit, width);
    MeterIsBounded(RpsMeter(l, calls, limit, width), LastRequest(l, calls), limit, width, a, b);
  }

  function RpsPauseEnd(l: Rps, calls: seq<RpsCall>): Option<int>
  {
    if calls == [] then l.backoff
    else
      var last := calls[|calls| - 1];
      if last.Hold? then Some(last.at + last.duration) else RpsPauseEnd(l, calls[..|calls| - 1])
  }

  /** The last call is a request outside any pause. */
  predicate Free(l: Rps, calls: seq<RpsCall>)
    requires calls != []
  {
    var n := |calls| - 1;
    var pause := RpsPauseEnd(l, calls[..n]);
    calls[n].Request? && (pause.Some? ==> pause.value <= calls[n].now)
  }

  /** Requests during a pause do not begin a window. */
  function RpsBegan(l: Rps, calls: seq<RpsCall>, width: int): int
  {
    if calls == [] then l.window.start
    else
      var last, before := calls[|calls| - 1], RpsBegan(l, calls[..|calls| - 1], width);
      if Free(l, calls) && last.now - before >= width then last.now else before
  }

  function RpsOriginOf(l: Rps, calls: seq<RpsCall>, width: int): Origin
  {
    if calls == [] then Origin(l.window.used, 0)
    else
      var n := |calls| - 1;
      if Free(l, calls) && calls[n].now - RpsBegan(l, calls[..n], width) >= width then Origin(0, n)
      else RpsOriginOf(l, calls[..n], width)
  }

  /** How many of the calls from `from` on were let through. */
  function RpsPassedFrom(l: Rps, calls: seq<RpsCall>, limit: int, width: int, from: nat): nat
  {
    if |calls| <= from then 0
    else
      var n := |calls| - 1;
      RpsPassedFrom(l, calls[..n], limit, width, from)
      + if RpsAdmits(RpsRun(l, calls[..n], limit, width), calls[n], limit, width) then 1 else 0
  }

  function RpsCounted(l: Rps, calls: seq<RpsCall>, limit: int, width: int): int
  {
    var o := RpsOriginOf(l, calls, width);
    o.count + RpsPassedFrom(l, calls, limit, width, o.from)
  }

  lemma {:induction false} RpsOriginIsPast(l: Rps, calls: seq<RpsCall>, width: int)
    ensures RpsOriginOf(l, calls, width).from <= |calls|
  {
    if calls != [] {
      RpsOriginIsPast(l, calls[..|calls| - 1], width);
    }
  }

  lemma {:induction false} RpsStateIsHistory(l: Rps, calls: seq<RpsCall>, limit: int, width: int)
    ensures RpsRun(l, calls, limit, width)
            == Rps(Window(RpsCounted(l, calls, limit, width), RpsBegan(l, calls, width)), RpsPauseEnd(l, calls))
  {
    if calls != [] {
      var n := |calls| - 1;
      RpsStateIsHistory(l, calls[..n], limit, width);
      RpsOriginIsPast(l, calls[..n], width);
      assert RpsPassedFrom(l, calls[..n], limit, width, n) == 0;
    }
  }

  /** The same for requests per second: below the limit since the window began, or a window that is due. */
  lemma RpsAdmissionExact(l: Rps, calls: seq<RpsCall>, r: RpsCall, limit: int, width: int)
    requires r.Request?
    ensures RpsAdmits(RpsRun(l, calls, limit, width), r, limit, width)
            <==> && (RpsPauseEnd(l, calls).Some? ==> RpsPauseEnd(l, calls).value <= r.now)
                 && (if r.now - RpsBegan(l, calls, width) >= width then 0 else RpsCounted(l, calls, limit, width))
                    < limit
  {
    RpsStateIsHistory(l, calls, limit, width);
  }

  lemma {:induction false} RpsPauseEndIs(l: Rps, before: seq<RpsCall>, pause: RpsCall, after: seq<RpsCall>)
    requires pause.Hold? && forall c :: c in after ==> c.Request?
    ensures RpsPauseEnd(l, before + [pause] + after) == Some(pause.at + pause.duration)
  {
    var all := before + [pause] + after;
    if after == [] {
      assert all == before + [pause];
    } else {
      assert all[..|all| - 1] == before + [pause] + after[..|after| - 1] && all[|all| - 1] == after[|after| - 1];
      assert after[|after| - 1] in after;
      RpsPauseEndIs(l, before, pause, after[..|after| - 1]);
    }
  }

  lemma RpsPauseHolds(
      l: Rps, before: seq<RpsCall>, pause: RpsCall, after: seq<RpsCall>, r: RpsCall, limit: int, width: int)
    requires pause.Hold? && (forall c :: c in after ==> c.Request?)
    requires r.Request? && r.now < pause.at + pause.duration
    ensures !RpsAdmits(RpsRun(l, before + [pause] + after, limit, width), r, limit, width)
  {
    RpsPauseEndIs(l, before, pause, after);
    RpsAdmissionExact(l, before + [pause] + after, r, limit, width);
  }

  // ---- One limit in less than a window ----

  /** Windows of one tick do not share an instant. */
  lemma OneTickWindows(m: Meter, now: int, limit: int, a: int)
    requires Metered(m, now, limit, 1)
    ensures CostWithin(m.charges, a, a) <= Cap(limit)
  {
    if exists k :: 0 <= k < |m.charges| && a <= m.charges[k].time <= a {
      var i, j := SpanExists(m.charges, a, a);
      Apart(m.starts, m.charges[i].window, m.charges[j].window, 1);
      SpannedCost(m, now, limit, 1, a, a, i, j, 1);
    } else {
      NoneWithin(m.charges, a, a);
    }
  }

  lemma OneLimit(m: Meter, now: int, limit: int, width: int, a: int, b: int)
    requires width > 0 && Metered(m, now, limit, width) && a <= b && b - a < width && (limit <= 0 || width == 1)
    ensures CostWithin(m.charges, a, b) <= Cap(limit)
  {
    MeterIsBounded(m, now, limit, width, a, b);
    if width == 1 {
      OneTickWindows(m, now, limit, a);
    }
  }

  function NewWeighted(start: int, budget: int): Weighted
  {
    Weighted(Window(0, start), budget, None)
  }

  /** In every run, no interval shorter than a window sees more than one budget. */
  ghost predicate WeightedKeepsOne(start: int, budget: int, width: int)
  {
    forall calls: seq<WeightedCall>, a: int, b: int ::
      Fair(NewWeighted(start, budget), calls, width, NONE) && a <= b && b - a < width ==>
        CostWithin(WeightedMeter(NewWeighted(start, budget), calls, width).charges, a, b) <= Cap(budget)
  }

  /** "Never exceed the limit" over sliding intervals holds exactly for budgets or windows too small to matter. */
  lemma WeightedOneExact(start: int, budget: int, width: int)
    ensures WeightedKeepsOne(start, budget, width) <==> budget <= 0 || width <= 1
  {
    if budget <= 0 || width <= 1 {
      var l := NewWeighted(start, budget);
      forall calls: seq<WeightedCall>, a: int, b: int
        | Fair(l, calls, width, NONE) && a <= b && b - a < width
        ensures CostWithin(WeightedMeter(l, calls, width).charges, a, b) <= Cap(budget)
      {
        WeightedIsMetered(l, calls, width);
        OneLimit(WeightedMeter(l, calls, width), LastWait(l, calls), budget, width, a, b);
      }
    } else {
      TwoBudgets(start, budget, width);
    }
  }

  // ---- The bounds are reached ----

  lemma OneMoreWait(l: Weighted, calls: seq<WeightedCall>, w: WeightedCall, width: int)
    requires w.Wait?
    ensures WeightedRun(l, calls + [w], width) == WeightedStep(WeightedRun(l, calls, width), w, width)
    ensures WeightedMeter(l, calls + [w], width)
            == Attempt(WeightedMeter(l, calls, width), w.now,
                       WeightedAdmits(WeightedRun(l, calls, width), w, width), w.weight, width)
  {
    assert (calls + [w])[..|calls|] == calls;
  }

  lemma FairOneMoreWait(l: Weighted, calls: seq<WeightedCall>, w: WeightedCall, width: int)
    requires Fair(l, calls, width, NONE) && w.Wait? && w.weight >= 0 && l.window.start <= w.now
    requires forall i :: 0 <= i < |calls| && calls[i].Wait? ==> calls[i].now <= w.now
    ensures Fair(l, calls + [w], width, NONE)
  {
    var all := calls + [w];
    forall i | 0 <= i < |calls|
      ensures all[..i] == calls[..i] && all[i] == calls[i]
    {
    }
  }

  /** The start of window `n` when each begins as the one before it ends. */
  function Begin(start: int, width: int, n: nat): int
  {
    if n == 0 then start else Begin(start, width, n - 1) + width
  }

  /** `n` budgets. */
  function Budgets(budget: nat, n: nat): nat
  {
    if n == 0 then 0 else Budgets(budget, n - 1) + budget
  }

  lemma {:induction false} InClosedForm(start: int, width: int, budget: nat, n: nat)
    ensures Begin(start, width, n) == start + n * width && Budgets(budget, n) == budget * n
  {
    if n > 0 {
      InClosedForm(start, width, budget, n - 1);
      assert (n - 1) * width + width == n * width && budget * (n - 1) + budget == budget * n;
    }
  }

  /** The whole budget at `first`, and again at the start of each of `n` windows. */
  function FullWaits(start: int, first: int, budget: nat, width: int, n: nat): seq<WeightedCall>
  {
    if n == 0 then [] + [Wait(first, first, budget)]
    else FullWaits(start, first, budget, width, n - 1) + [Wait(Begin(start, width, n), Begin(start, width, n), budget)]
  }

  lemma OneMoreWithin(charges: seq<Charge>, c: Charge, a: int, b: int)
    ensures CostWithin(charges + [c], a, b) == CostWithin(charges, a, b) + if a <= c.time <= b then c.cost else 0
  {
    assert (charges + [c])[..|charges|] == charges;
  }

  /** After these waits the window that began at `begun` is full, and `total` was charged since `first`. */
  ghost predicate Full(
      start: int, calls: seq<WeightedCall>, budget: nat, width: int, first: int, begun: int, last: int, total: int)
  {
    var l := NewWeighted(start, budget);
    && Fair(l, calls, width, NONE)
    && (forall i :: 0 <= i < |calls| ==> calls[i].Wait? && calls[i].now <= last)
    && WeightedRun(l, calls, width) == Weighted(Window(budget, begun), budget, None)
    && WeightedMeter(l, calls, width).current == Window(budget, begun)
    && forall b :: last <= b ==> CostWithin(WeightedMeter(l, calls, width).charges, first, b) == total
  }

  lemma FirstFull(start: int, budget: nat, width: int, first: int)
    requires start <= first < start + width
    ensures Full(start, [] + [Wait(first, first, budget)], budget, width, first, start, first, budget)
  {
    var l, w := NewWeighted(start, budget), Wait(first, first, budget);
    FairOneMoreWait(l, [], w, width);
    OneMoreWait(l, [], w, width);
    forall b | first <= b
      ensures CostWithin(WeightedMeter(l, [] + [w], width).charges, first, b) == budget
    {
      OneMoreWithin([], Charge(first, budget, 0), first, b);
    }
  }

  lemma NextFull(
      start: int, calls: seq<WeightedCall>, budget: nat, width: int, first: int, begun: int, last: int,
      total: int, now: int)
    requires width > 0 && Full(start, calls, budget, width, first, begun, last, total)
    requires start <= first <= last <= now && now - begun >= width
    ensures Full(start, calls + [Wait(now, now, budget)], budget, width, first, now, now, total + budget)
  {
    var l, w := NewWeighted(start, budget), Wait(now, now, budget);
    FairOneMoreWait(l, calls, w, width);
    OneMoreWait(l, calls, w, width);
    NextCharge(start, calls, budget, width, first, begun, last, total, now);
  }

  lemma NextCharge(
      start: int, calls: seq<WeightedCall>, budget: nat, width: int, first: int, begun: int, last: int,
      total: int, now: int)
    requires width > 0 && Full(start, calls, budget, width, first, begun, last, total)
    requires start <= first <= last <= now && now - begun >= width
    ensures var m := WeightedMeter(NewWeighted(start, budget), calls + [Wait(now, now, budget)], width);
            && m.current == Window(budget, now)
            && forall b :: now <= b ==> CostWithin(m.charges, first, b) == total + budget
  {
    var l, w := NewWeighted(start, budget), Wait(now, now, budget);
    OneMoreWait(l, calls, w, width);
    var m := WeightedMeter(l, calls, width);
    forall b | now <= b
      ensures CostWithin(m.charges + [Charge(now, budget, |m.starts|)], first, b) == total + budget
    {
      OneMoreWithin(m.charges, Charge(now, budget, |m.starts|), first, b);
    }
  }

  ghost predicate FullAfter(start: int, first: int, budget: nat, width: int, n: nat)
  {
    Full(start, FullWaits(start, first, budget, width, n), budget, width, first, Begin(start, width, n),
         if n == 0 then first else Begin(start, width, n), Budgets(budget, n + 1))
  }

  lemma {:induction false} FirstBeforeNext(start: int, first: int, width: int, n: nat)
    requires width > 0 && start <= first < start + width
    ensures first < Begin(start, width, n + 1)
  {
    if n > 0 {
      FirstBeforeNext(start, first, width, n - 1);
    }
  }

  lemma {:induction false} FullWindows(start: int, first: int, budget: nat, width: int, n: nat)
    requires width > 0 && start <= first < start + width
    ensures FullAfter(start, first, budget, width, n)
  {
    if n == 0 {
      FullBegins(start, first, budget, width);
    } else {
      FullWindows(start, first, budget, width, n - 1);
      FullNext(start, first, budget, width, n);
    }
  }

  lemma FullBegins(start: int, first: int, budget: nat, width: int)
    requires start <= first < start + width
    ensures FullAfter(start, first, budget, width, 0)
  {
    FirstFull(start, budget, width, first);
    assert Budgets(budget, 1) == Budgets(budget, 0) + budget;
  }

  lemma FullNext(start: int, first: int, budget: nat, width: int, n: nat)
    requires n >= 1 && width > 0 && start <= first < start + width && FullAfter(start, first, budget, width, n - 1)
    ensures FullAfter(start, first, budget, width, n)
  {
    var begun, now := Begin(start, width, n - 1), Begin(start, width, n);
    FirstBeforeNext(start, first, width, n - 1);
    if n > 1 {
      FirstBeforeNext(start, first, width, n - 2);
    }
    NextFull(start, FullWaits(start, first, budget, width, n - 1), budget, width, first, begun,
             if n == 1 then first else begun, Budgets(budget, n), now);
    assert Budgets(budget, n + 1) == Budgets(budget, n) + budget;
  }

  /** What the waits above let through from `first` to the start of the last window. */
  lemma FullTotal(start: int, first: int, budget: nat, width: int, n: nat)
    requires width > 0 && start <= first < start + width && (n >= 1 || first == start)
    ensures Fair(NewWeighted(start, budget), FullWaits(start, first, budget, width, n), width, NONE)
    ensures CostWithin(WeightedMeter(NewWeighted(start, budget), FullWaits(start, first, budget, width, n),
                                      width).charges,
                       first, start + n * width) == budget * (n + 1)
  {
    FullWindows(start, first, budget, width, n);
    InClosedForm(start, width, budget, n);
    InClosedForm(start, width, budget, n + 1);
  }

  /** A full budget in the last instant of a window and again in the next. */
  lemma TwoBudgets(start: int, budget: nat, width: int)
    requires width >= 2
    ensures var l, a := NewWeighted(start, budget), start + width - 1;
            var calls := FullWaits(start, a, budget, width, 1);
            && Fair(l, calls, width, NONE)
            && CostWithin(WeightedMeter(l, calls, width).charges, a, a + 1) == 2 * budget
  {
    FullTotal(start, start + width - 1, budget, width, 1);
  }

  /** From construction, with a full budget at the start of each of any number of windows. */
  lemma FirstBoundIsReached(start: int, budget: nat, width: int, n: nat)
    requires width > 0
    ensures var l, calls, b := NewWeighted(start, budget), FullWaits(start, start, budget, width, n), start + n * width;
            && Fair(l, calls, width, NONE)
            && CostWithin(WeightedMeter(l, calls, width).charges, start, b) == budget * ((b - start) / width + 1)
  {
    FullTotal(start, start, budget, width, n);
    DivUnique(n * width, width, n);
  }

  /** In an interval from the last instant of one window to the first of any later one. */
  lemma IntervalBoundIsReached(start: int, budget: nat, width: int, n: nat)
    requires n >= 1 && width >= 2
    ensures var l, a, b := NewWeighted(start, budget), start + width - 1, start + n * width;
            var calls := FullWaits(start, a, budget, width, n);
            && Fair(l, calls, width, NONE)
            && CostWithin(WeightedMeter(l, calls, width).charges, a, b) == budget * ((b - a) / width + 2)
  {
    FullTotal(start, start + width - 1, budget, width, n);
    assert (n - 1) * width == n * width - width;
    DivUnique(n * width - width + 1, width, n - 1);
  }

  // ---- The same for requests per second ----

  function NewRps(start: int): Rps
  {
    Rps(Window(0, start), None)
  }

  ghost predicate RpsKeepsOne(start: int, limit: int, width: int)
  {
    forall calls: seq<RpsCall>, a: int, b: int ::
      Forward(NewRps(start), calls) && a <= b && b - a < width ==>
        CostWithin(RpsMeter(NewRps(start), calls, limit, width).charges, a, b) <= Cap(limit)
  }

  /** `n` requests at one instant. */
  function Burst(now: int, n: nat): seq<RpsCall>
  {
    if n == 0 then [] else Burst(now, n - 1) + [Request(now)]
  }

  lemma OneMoreRequest(l: Rps, calls: seq<RpsCall>, r: RpsCall, limit: int, width: int)
    requires r.Request?
    ensures RpsRun(l, calls + [r], limit, width) == RpsStep(RpsRun(l, calls, limit, width), r, limit, width)
    ensures RpsMeter(l, calls + [r], limit, width)
            == RequestMeter(RpsRun(l, calls, limit, width), RpsMeter(l, calls, limit, width), r, limit, width)
  {
    assert (calls + [r])[..|calls|] == calls;
  }

  lemma {:induction false} BurstIs(now: int, n: nat)
    ensures |Burst(now, n)| == n && forall i :: 0 <= i < n ==> Burst(now, n)[i] == Request(now)
  {
    if n > 0 {
      BurstIs(now, n - 1);
    }
  }

  predicate Filled(l: Rps, m: Meter, start: int, now: int, n: int)
  {
    && l == Rps(Window(n, start), None) && m.current == Window(n, start)
    && CostWithin(m.charges, now, now + 1) == n
  }

  lemma {:induction false} BurstFills(start: int, now: int, limit: int, width: int, n: nat)
    requires start <= now < start + width && n <= limit
    ensures var l, calls := NewRps(start), Burst(now, n);
            Filled(RpsRun(l, calls, limit, width), RpsMeter(l, calls, limit, width), start, now, n)
  {
    if n > 0 {
      BurstFills(start, now, limit, width, n - 1);
      var l, calls := NewRps(start), Burst(now, n - 1);
      OneMoreRequest(l, calls, Request(now), limit, width);
      OneMoreOfBurst(RpsRun(l, calls, limit, width), RpsMeter(l, calls, limit, width), start, now, limit, width, n - 1);
    }
  }

  lemma OneMoreOfBurst(l: Rps, m: Meter, start: int, now: int, limit: int, width: int, n: nat)
    requires Filled(l, m, start, now, n) && start <= now < start + width && n < limit
    ensures Filled(RpsStep(l, Request(now), limit, width), RequestMeter(l, m, Request(now), limit, width),
                   start, now, n + 1)
  {
    OneMoreWithin(m.charges, Charge(now, 1, |m.starts| - 1), now, now + 1);
  }

  /** A full burst in the last instant of a window and one request more in the next. */
  lemma LimitAndOneMore(start: int, limit: int, width: int)
    requires limit >= 1 && width >= 2
    ensures var a := start + width - 1;
            var calls := Burst(a, limit) + [Request(a + 1)];
            && Forward(NewRps(start), calls)
            && CostWithin(RpsMeter(NewRps(start), calls, limit, width).charges, a, a + 1) == limit + 1
  {
    var l, a := NewRps(start), start + width - 1;
    BurstIs(a, limit);
    BurstFills(start, a, limit, width, limit);
    OneMoreRequest(l, Burst(a, limit), Request(a + 1), limit, width);
    var m := RpsMeter(l, Burst(a, limit), limit, width);
    OneMoreWithin(m.charges, Charge(a + 1, 1, |Roll(m, a + 1, width).starts| - 1), a, a + 1);
  }

  lemma RpsOneExact(start: int, limit: int, width: int)
    ensures RpsKeepsOne(start, limit, width) <==> limit <= 0 || width <= 1
  {
    var l := NewRps(start);
    if limit <= 0 || width <= 1 {
      forall calls: seq<RpsCall>, a: int, b: int
        | Forward(l, calls) && a <= b && b - a < width
        ensures CostWithin(RpsMeter(l, calls, limit, width).charges, a, b) <= Cap(limit)
      {
        RpsIsMetered(l, calls, limit, width);
        OneLimit(RpsMeter(l, calls, limit, width), LastRequest(l, calls), limit, width, a, b);
      }
    } else {
      LimitAndOneMore(start, limit, width);
    }
  }
}
