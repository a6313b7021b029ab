/**
 The asynchronous audit sink: emitters put events on a bounded channel or drop them, one goroutine takes
 them off and hands them to the delegate. Every method of the class is one atomic step; a run is any
 interleaving of steps.
 */
module AsyncSinks {
  import opened Audit

  /** Where the goroutine is: about to receive, blocked on an empty channel, handing over an event, or gone. */
  datatype Loop = Running | Waiting | Delivering(event: Event) | Exited

  datatype Sink = Sink(
    capacity: nat, queue: seq<Event>, loop: Loop, delivered: seq<Event>, dropped: nat, closed: bool)

  function Fresh(capacity: nat): Sink
  {
    Sink(capacity, [], Running, [], 0, false)
  }

  /** A blocked receiver takes the event directly, whatever the capacity; otherwise there must be room. */
  predicate Takes(s: Sink)
  {
    s.loop.Waiting? || |s.queue| < s.capacity
  }

  function EmitStep(s: Sink, e: Event): Sink
  {
    if s.loop.Waiting? then s.(loop := Delivering(e))
    else if |s.queue| < s.capacity then s.(queue := s.queue + [e])
    else s.(dropped := s.dropped + 1)
  }

  /** One step of the goroutine, or none if it is blocked or gone. */
  function AdvanceStep(s: Sink): Sink
  {
    match s.loop
    case Running =>
      if s.queue != [] then s.(loop := Delivering(s.queue[0]), queue := s.queue[1..])
      else if s.closed then s.(loop := Exited)
      else s.(loop := Waiting)
    case Waiting => if s.closed then s.(loop := Exited) else s
    case Delivering(e) => s.(loop := Running, delivered := s.delivered + [e])
    case Exited => s
  }

  class AsyncSink {
    const capacity: nat
    const delegate: InMemorySink?
    var queue: seq<Event>
    var loop: Loop
    var dropped: nat
    var closed: bool
    ghost var delivered: seq<Event>

    ghost function State(): Sink
      reads this
    {
      Sink(capacity, queue, loop, delivered, dropped, closed)
    }

    constructor (delegate: InMemorySink?, queueSize: nat)
      ensures this.delegate == delegate && State() == Fresh(queueSize)
    {
      capacity, this.delegate := queueSize, delegate;
      queue, loop, dropped, closed, delivered := [], Running, 0, false, [];
    }

    /** Sending on a closed channel panics, so the caller must not have closed the sink. */
    method Emit(event: Event, now: int)
      requires !closed
      modifies this
      ensures State() == EmitStep(old(State()), Stamped(event, now))
    {
      var e := event;
      if e.timestamp == 0 {
        e := e.(timestamp := now);
      }
      if loop.Waiting? {
        loop := Delivering(e);
      } else if |queue| < capacity {
        queue := queue + [e];
      } else {
        dropped := dropped + 1;
      }
    }

    method Advance(now: int)
      modifies this, delegate
      ensures State() == AdvanceStep(old(State()))
      ensures delegate != null ==>
                delegate.events == old(delegate.events) +
                  if old(loop).Delivering? then [Stamped(old(loop).event, now)] else []
    {
      match loop
      case Running =>
        if |queue| > 0 {
          loop := Delivering(queue[0]);
          queue := queue[1..];
        } else if closed {
          loop := Exited;
        } else {
          loop := Waiting;
        }
      case Waiting =>
        if closed {
          loop := Exited;
        }
      case Delivering(e) =>
        if delegate != null {
          delegate.Emit(e, now);
        }
        delivered := delivered + [e];
        loop := Running;
      case Exited =>
    }

    method Dropped() returns (n: nat)
      ensures n == dropped
    {
      n := dropped;
    }

    method Close()
      modifies this
      ensures State() == old(State()).(closed := true)
    {
      if closed {
        return;
      }
      closed := true;
    }
  }

  // ---- Interleavings ----

  datatype Move = Emit(event: Event, now: int) | Advance | Close

  function Step(s: Sink, m: Move): Sink
  {
    match m
    case Emit(e, now) => EmitStep(s, Stamped(e, now))
    case Advance => AdvanceStep(s)
    case Close => s.(closed := true)
  }

  function Run(s: Sink, ms: seq<Move>): Sink
  {
    if ms == [] then s else Step(Run(s, ms[..|ms| - 1]), ms[|ms| - 1])
  }

  /** Nothing is emitted once the sink is closed. */
  predicate Legal(ms: seq<Move>)
  {
    forall i, j :: 0 <= i < j < |ms| && ms[i].Close? ==> !ms[j].Emit?
  }

  /** The events that were not dropped, in the order of their emission. */
  function Accepted(s: Sink, ms: seq<Move>): seq<Event>
  {
    if ms == [] then []
    else
      var n := |ms| - 1;
      Accepted(s, ms[..n]) +
      if ms[n].Emit? && Takes(Run(s, ms[..n])) then [Stamped(ms[n].event, ms[n].now)] else []
  }

  function Emits(ms: seq<Move>): nat
  {
    if ms == [] then 0 else Emits(ms[..|ms| - 1]) + if ms[|ms| - 1].Emit? then 1 else 0
  }

  function InFlight(s: Sink): seq<Event>
  {
    if s.loop.Delivering? then [s.loop.event] else []
  }

  predicate Sound(s: Sink)
  {
    && |s.queue| <= s.capacity
    && (s.loop.Waiting? ==> s.queue == [])
    && (s.loop.Exited? ==> s.closed && s.queue == [])
  }

  lemma StepConserves(s: Sink, m: Move)
    requires Sound(s) && (m.Emit? ==> !s.closed)
    ensures Sound(Step(s, m))
    ensures Step(s, m).delivered + InFlight(Step(s, m)) + Step(s, m).queue
            == s.delivered + InFlight(s) + s.queue + if m.Emit? && Takes(s) then [Stamped(m.event, m.now)] else []
    ensures Step(s, m).dropped == s.dropped + if m.Emit? && !Takes(s) then 1 else 0
    ensures m.Emit? && !s.loop.Waiting? && |s.queue| == s.capacity <==> Step(s, m).dropped == s.dropped + 1
  {
    if m.Advance? && s.loop.Running? && s.queue != [] {
      assert s.queue == [s.queue[0]] + s.queue[1..];
    }
  }

  /** Closed exactly if some move closed it. */
  lemma {:induction false} ClosedByMove(capacity: nat, ms: seq<Move>)
    ensures Run(Fresh(capacity), ms).closed <==> exists i :: 0 <= i < |ms| && ms[i].Close?
    ensures Run(Fresh(capacity), ms).capacity == capacity
  {
    if ms != [] {
      var n := |ms| - 1;
      ClosedByMove(capacity, ms[..n]);
      if i :| 0 <= i < |ms| && ms[i].Close? {
        assert i < n ==> ms[..n][i].Close?;
      }
    }
  }

  /**
   Over every interleaving: what has been delivered, then what is in flight, then what is queued are the
   accepted events in order; every emission was accepted or counted as dropped; the queue keeps to its
   capacity.
   */
  lemma {:induction false} EventsAreConserved(capacity: nat, ms: seq<Move>)
    requires Legal(ms)
    ensures var s := Run(Fresh(capacity), ms);
            && s.delivered + InFlight(s) + s.queue == Accepted(Fresh(capacity), ms)
            && Emits(ms) == |Accepted(Fresh(capacity), ms)| + s.dropped
            && s.capacity == capacity && Sound(s)
  {
    if ms != [] {
      var n := |ms| - 1;
      EventsAreConserved(capacity, ms[..n]);
      ClosedByMove(capacity, ms[..n]);
      var s := Run(Fresh(capacity), ms[..n]);
      StepConserves(s, ms[n]);
    }
  }

  /** Steps the goroutine still needs, if nothing more arrives, until it has delivered all there is. */
  function Remaining(s: Sink): nat
  {
    match s.loop
    case Running => 2 * |s.queue| + 1
    case Waiting => if s.closed then 1 else 0
    case Delivering(_) => 2 * |s.queue| + 2
    case Exited => 0
  }

  function Advances(ms: seq<Move>): nat
  {
    if ms == [] then 0 else Advances(ms[..|ms| - 1]) + if ms[|ms| - 1].Advance? then 1 else 0
  }

  /** Before closing and after it, each step of the goroutine brings the end one step nearer. */
  lemma {:induction false} EmptiesItself(s: Sink, ms: seq<Move>)
    requires Sound(s) && forall i :: 0 <= i < |ms| ==> !ms[i].Emit? && (ms[i].Close? ==> s.closed)
    ensures var t := Run(s, ms);
            && Sound(t) && t.closed == s.closed
            && Remaining(t) == (if Advances(ms) >= Remaining(s) then 0 else Remaining(s) - Advances(ms))
            && t.delivered + InFlight(t) + t.queue == s.delivered + InFlight(s) + s.queue
  {
    if ms != [] {
      var n := |ms| - 1;
      EmptiesItself(s, ms[..n]);
      StepConserves(Run(s, ms[..n]), ms[n]);
    }
  }

  lemma {:induction false} RunSplit(s: Sink, a: seq<Move>, b: seq<Move>)
    ensures Run(s, a + b) == Run(Run(s, a), b)
  {
    if b == [] {
      assert a + b == a;
    } else {
      assert (a + b)[..|a + b| - 1] == a + b[..|b| - 1];
      RunSplit(s, a, b[..|b| - 1]);
    }
  }

  /**
   Close loses nothing: whatever happened before, once the goroutine has been given its remaining steps it
   has ended, and everything ever accepted has been delivered, in order.
   */
  lemma {:induction false} CloseThenDrain(capacity: nat, before: seq<Move>, after: seq<Move>)
    requires Legal(before) && forall i :: 0 <= i < |after| ==> !after[i].Emit?
    requires Advances(after) >= Remaining(Run(Fresh(capacity), before + [Close]))
    ensures var end := Run(Fresh(capacity), before + [Close] + after);
            end.loop.Exited? && end.delivered == Accepted(Fresh(capacity), before)
  {
    EventsAreConserved(capacity, before);
    var s := Run(Fresh(capacity), before);
    assert (before + [Close])[..|before|] == before;
    var closed := Run(Fresh(capacity), before + [Close]);
    assert closed == s.(closed := true);
    EmptiesItself(closed, after);
    RunSplit(Fresh(capacity), before + [Close], after);
  }

  /** An open sink delivers everything too: with the goroutine's remaining steps, all that was ever accepted. */
  lemma OpenDrains(capacity: nat, before: seq<Move>, after: seq<Move>)
    requires Legal(before) && (forall i :: 0 <= i < |before| ==> !before[i].Close?)
    requires forall i :: 0 <= i < |after| ==> after[i].Advance?
    requires |after| >= Remaining(Run(Fresh(capacity), before))
    ensures var end := Run(Fresh(capacity), before + after);
            end.loop.Waiting? && end.delivered == Accepted(Fresh(capacity), before)
  {
    EventsAreConserved(capacity, before);
    ClosedByMove(capacity, before);
    AllAdvances(after);
    EmptiesItself(Run(Fresh(capacity), before), after);
    RunSplit(Fresh(capacity), before, after);
  }

  lemma {:induction false} AllAdvances(ms: seq<Move>)
    requires forall i :: 0 <= i < |ms| ==> ms[i].Advance?
    ensures Advances(ms) == |ms|
  {
    if ms != [] {
      AllAdvances(ms[..|ms| - 1]);
    }
  }
}
