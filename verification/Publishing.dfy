/** Publishing fills and balances with bounded retries, and the broker list of the publisher's URL. */
module Publishing {
  import opened Sequences
  datatype FillEvent = FillEvent(venueOrderId: string, internalId: string, tradeId: string)

  datatype BalanceEvent = BalanceEvent(venue: string, asset: string)

  /** How publishing ended, and after how many attempts. */
  datatype Outcome =
    | Rejected
    | Unencodable
    | Published(attempts: nat)
    | Cancelled(attempts: nat)
    | Exhausted(attempts: nat)

  /** The wait after the `i`-th attempt (from 0) is `i + 1` tenths of a second, in milliseconds. */
  const UNIT: int := 100

  /** All waits after the first `n` attempts. */
  function Waits(n: nat): int
  {
    if n == 0 then 0 else Waits(n - 1) + n * UNIT
  }

  lemma {:induction false} WaitsClosed(n: nat)
    ensures 2 * Waits(n) == UNIT * (n * (n + 1))
  {
    if n > 0 {
      WaitsClosed(n - 1);
      assert n * (n + 1) == (n - 1) * n + 2 * n;
    }
  }

  /** The first `n` attempts all failed and none of the waits between them was cancelled. */
  predicate FailedUncancelled(ok: nat -> bool, cancel: nat -> bool, n: nat)
  {
    forall i :: 0 <= i < n ==> !ok(i) && !cancel(i)
  }

  function Allowed(maxRetries: int): nat
  {
    if maxRetries < 0 then 0 else maxRetries + 1
  }

  /** What the outcome means, given how each attempt and each wait goes. */
  predicate Meaning(o: Outcome, ok: nat -> bool, cancel: nat -> bool, maxRetries: int)
  {
    match o
    case Rejected => false
    case Unencodable => false
    case Published(n) => 1 <= n <= Allowed(maxRetries) && FailedUncancelled(ok, cancel, n - 1) && ok(n - 1)
    case Cancelled(n) =>
      1 <= n <= Allowed(maxRetries) && FailedUncancelled(ok, cancel, n - 1) && !ok(n - 1) && cancel(n - 1)
    case Exhausted(n) => n == Allowed(maxRetries) && FailedUncancelled(ok, cancel, n)
  }

  /** Whatever the publisher and the context do, one outcome fits and no other. */
  lemma OutcomeUnique(o: Outcome, p: Outcome, ok: nat -> bool, cancel: nat -> bool, maxRetries: int)
    requires Meaning(o, ok, cancel, maxRetries) && Meaning(p, ok, cancel, maxRetries)
    ensures o == p
  {
  }

  /** The retry loop; `delay` is the total of the waits begun. */
  method Attempt(maxRetries: int, ok: nat -> bool, cancel: nat -> bool) returns (o: Outcome, delay: int)
    ensures Meaning(o, ok, cancel, maxRetries)
    ensures o.Published? ==> delay == 50 * (o.attempts * (o.attempts - 1))
    ensures !o.Published? ==> delay == 50 * (o.attempts * (o.attempts + 1))
    ensures o.Exhausted? ==> o.attempts == if maxRetries < 0 then 0 else maxRetries + 1
    ensures 2 * delay <= UNIT * (Allowed(maxRetries) * (Allowed(maxRetries) + 1))
  {
    delay := 0;
    var attempt := 0;
    while attempt <= maxRetries
      invariant 0 <= attempt <= Allowed(maxRetries)
      invariant FailedUncancelled(ok, cancel, attempt)
      invariant delay == Waits(attempt)
    {
      if ok(attempt) {
        WaitsGrow(attempt, Allowed(maxRetries));
        WaitsClosed(Allowed(maxRetries));
        WaitsClosed(attempt);
        return Published(attempt + 1), delay;
      }
      delay := delay + (attempt + 1) * UNIT;
      if cancel(attempt) {
        WaitsGrow(attempt + 1, Allowed(maxRetries));
        WaitsClosed(Allowed(maxRetries));
        WaitsClosed(attempt + 1);
        return Cancelled(attempt + 1), delay;
      }
      attempt := attempt + 1;
    }
    WaitsClosed(Allowed(maxRetries));
    return Exhausted(attempt), delay;
  }

  lemma {:induction false} WaitsGrow(m: nat, n: nat)
    requires m <= n
    ensures Waits(m) <= Waits(n)
  {
    if m < n {
      WaitsGrow(m, n - 1);
    }
  }

  /** The event as it is sent: without an internal id, the venue's id stands in. */
  function Completed(ev: FillEvent): FillEvent
  {
    if ev.internalId == "" then ev.(internalId := ev.venueOrderId) else ev
  }

  /**
   A fill without an order id is rejected unsent, and one that does not encode is given up; one dead letter
   exactly when all attempts failed.
   */
  method PublishFill(ev: FillEvent, encodes: FillEvent -> bool, maxRetries: int, ok: nat -> bool, cancel: nat -> bool)
    returns (o: Outcome, delay: int, deadLetters: seq<FillEvent>)
    ensures o.Rejected? <==> ev.venueOrderId == ""
    ensures o.Unencodable? <==> ev.venueOrderId != "" && !encodes(Completed(ev))
    ensures !o.Rejected? && !o.Unencodable? ==> Meaning(o, ok, cancel, maxRetries)
    ensures o.Rejected? || o.Unencodable? ==> delay == 0
    ensures deadLetters == if o.Exhausted? then [Completed(ev)] else []
    ensures o.Exhausted? ==>
              deadLetters == [ev.(internalId := if ev.internalId == "" then ev.venueOrderId else ev.internalId)]
    ensures 2 * delay <= UNIT * (Allowed(maxRetries) * (Allowed(maxRetries) + 1))
  {
    deadLetters := [];
    if ev.venueOrderId == "" {
      WaitsGrow(0, Allowed(maxRetries));
      WaitsClosed(Allowed(maxRetries));
      return Rejected, 0, [];
    }
    var sent := ev;
    if sent.internalId == "" {
      sent := sent.(internalId := sent.venueOrderId);
    }
    if !encodes(sent) {
      WaitsGrow(0, Allowed(maxRetries));
      WaitsClosed(Allowed(maxRetries));
      return Unencodable, 0, [];
    }
    o, delay := Attempt(maxRetries, ok, cancel);
    if o.Exhausted? {
      deadLetters := [sent];
    }
  }

  /** Balances have no dead letter. */
  method PublishBalance(
      ev: BalanceEvent, encodes: BalanceEvent -> bool, maxRetries: int, ok: nat -> bool, cancel: nat -> bool)
    returns (o: Outcome, delay: int)
    ensures o.Rejected? <==> ev.venue == "" || ev.asset == ""
    ensures o.Unencodable? <==> ev.venue != "" && ev.asset != "" && !encodes(ev)
    ensures o.Rejected? || o.Unencodable? ==> delay == 0
    ensures !o.Rejected? && !o.Unencodable? ==> Meaning(o, ok, cancel, maxRetries)
    ensures 2 * delay <= UNIT * (Allowed(maxRetries) * (Allowed(maxRetries) + 1))
  {
    if ev.venue == "" || ev.asset == "" {
      WaitsGrow(0, Allowed(maxRetries));
      WaitsClosed(Allowed(maxRetries));
      return Rejected, 0;
    }
    if !encodes(ev) {
      WaitsGrow(0, Allowed(maxRetries));
      WaitsClosed(Allowed(maxRetries));
      return Unencodable, 0;
    }
    o, delay := Attempt(maxRetries, ok, cancel);
  }

  // ---- The broker list ----

  /** The white space of Unicode: the blanks of ASCII, and those beyond. */
  predicate IsSpace(c: char)
  {
    || '\U{9}' <= c <= '\U{D}' || c == ' ' || c == '\U{85}' || c == '\U{A0}' || c == '\U{1680}'
    || '\U{2000}' <= c <= '\U{200A}' || c == '\U{2028}' || c == '\U{2029}' || c == '\U{202F}'
    || c == '\U{205F}' || c == '\U{3000}'
  }

  /** By code point. */
  lemma SpacesAre(c: char)
    ensures IsSpace(c) <==>
            || c as int in {9, 10, 11, 12, 13, 32, 133, 160, 5760, 8232, 8233, 8239, 8287, 12288}
            || 8192 <= c as int <= 8202
  {
  }

  function TrimLeft(s: string): string
  {
    if s != "" && IsSpace(s[0]) then TrimLeft(s[1..]) else s
  }

  function TrimRight(s: string): string
  {
    if s != "" && IsSpace(s[|s| - 1]) then TrimRight(s[..|s| - 1]) else s
  }

  function Trim(s: string): string
  {
    TrimRight(TrimLeft(s))
  }

  lemma {:induction false} TrimLeftCuts(s: string) returns (i: nat)
    ensures i <= |s| && TrimLeft(s) == s[i..] && (i < |s| ==> !IsSpace(s[i]))
    ensures forall j :: 0 <= j < i ==> IsSpace(s[j])
  {
    i := 0;
    if s != "" && IsSpace(s[0]) {
      var k := TrimLeftCuts(s[1..]);
      i := k + 1;
      forall j | 0 <= j < i
        ensures IsSpace(s[j])
      {
        assert j > 0 ==> s[j] == s[1..][j - 1];
      }
    }
  }

  lemma {:induction false} TrimRightCuts(s: string) returns (n: nat)
    ensures n <= |s| && TrimRight(s) == s[..n] && (n > 0 ==> !IsSpace(s[n - 1]))
    ensures forall j :: n <= j < |s| ==> IsSpace(s[j])
  {
    n := |s|;
    if s != "" && IsSpace(s[|s| - 1]) {
      n := TrimRightCuts(s[..|s| - 1]);
      assert forall j :: n <= j < |s| - 1 ==> s[j] == s[..|s| - 1][j];
    }
  }

  /** Neither end is a blank, and nothing but blanks at the ends was removed. */
  lemma TrimCuts(s: string) returns (i: nat, k: nat)
    ensures i <= k <= |s| && Trim(s) == s[i..k]
    ensures i < k ==> !IsSpace(s[i]) && !IsSpace(s[k - 1])
    ensures forall j :: 0 <= j < i || k <= j < |s| ==> IsSpace(s[j])
  {
    i := TrimLeftCuts(s);
    var l := TrimLeft(s);
    var n := TrimRightCuts(l);
    k := i + n;
    assert forall j :: k <= j < |s| ==> s[j] == l[j - i];
  }

  function Clean(brokers: seq<string>): seq<string>
  {
    if brokers == [] then []
    else
      var n := |brokers| - 1;
      Clean(brokers[..n]) + if Trim(brokers[n]) == "" then [] else [Trim(brokers[n])]
  }

  lemma CleanOne(s: string)
    ensures Clean([s]) == if Trim(s) == "" then [] else [Trim(s)]
  {
    assert [s][..0] == [] && Clean([]) == [];
  }

  /** Each broker contributes on its own, in order: its trimmed text, or nothing if that is empty. */
  lemma {:induction false} CleanConcat(a: seq<string>, b: seq<string>)
    ensures Clean(a + b) == Clean(a) + Clean(b)
    ensures forall s :: Clean([s]) == if Trim(s) == "" then [] else [Trim(s)]
  {
    forall s
      ensures Clean([s]) == if Trim(s) == "" then [] else [Trim(s)]
    {
      CleanOne(s);
    }
    if b == [] {
      assert a + b == a;
    } else {
      var s := b[|b| - 1];
      CleanConcat(a, b[..|b| - 1]);
      LastOfConcat(a, b);
      Regroup(Clean(a), Clean(b[..|b| - 1]), if Trim(s) == "" then [] else [Trim(s)]);
    }
  }

  /** Trims and drops blanks in place: the write position never overtakes the read position. */
  method CleanInPlace(brokers: array<string>) returns (n: nat)
    modifies brokers
    ensures n <= brokers.Length && brokers[..n] == Clean(old(brokers[..]))
  {
    n := 0;
    for i := 0 to brokers.Length
      invariant n <= i
      invariant brokers[..n] == Clean(old(brokers[..])[..i])
      invariant forall j :: i <= j < brokers.Length ==> brokers[j] == old(brokers[j])
    {
      assert old(brokers[..])[..i + 1][..i] == old(brokers[..])[..i];
      var b := Trim(brokers[i]);
      if b != "" {
        ghost var done := brokers[..n];
        brokers[n] := b;
        n := n + 1;
        assert brokers[..n] == done + [b];
      }
    }
    assert old(brokers[..])[..brokers.Length] == old(brokers[..]);
  }
}
