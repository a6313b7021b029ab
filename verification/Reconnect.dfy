/** Reconnection of the socket client: jittered exponential delays, reset by every successful connection. */
module Reconnect {

  /** The first backoff, in nanoseconds; a delay is drawn from it before it is used. */
  const BASE: int := 100_000_000

  function NextBackoff(prev: int, jitter: int, max: int): int
  {
    var next := 2 * prev + jitter;
    if next > max then max else next
  }

  /**
   One round of the loop: the connection fails, or succeeds and is lost again later. `jitter` is what the
   random source gives for the next delay.
   */
  datatype Round = Failed(jitter: int) | Lost(jitter: int)

  function BackoffAfter(rounds: seq<Round>, max: int): int
  {
    if rounds == [] then BASE
    else
      var n := |rounds| - 1;
      NextBackoff(if rounds[n].Lost? then BASE else BackoffAfter(rounds[..n], max), rounds[n].jitter, max)
  }

  /** Random jitter lies between zero and the backoff it is added to. */
  predicate Drawn(rounds: seq<Round>, max: int)
  {
    forall i :: 0 <= i < |rounds| ==>
      0 <= rounds[i].jitter <= (if rounds[i].Lost? then BASE else BackoffAfter(rounds[..i], max))
  }

  /** A delay is twice the one before, or 200 ms at the start and after a connection, and the jitter, cut at `max`. */
  predicate Doubles(slept: seq<int>, rounds: seq<Round>, max: int, i: nat)
    requires i < |slept| == |rounds|
  {
    var before := if i == 0 || rounds[i].Lost? then 100_000_000 else slept[i - 1];
    var next := 2 * before + rounds[i].jitter;
    slept[i] == if next < max then next else max
  }

  lemma OneRound(rounds: seq<Round>, i: nat, max: int)
    requires i < |rounds|
    ensures var before := if i == 0 || rounds[i].Lost? then 100_000_000 else BackoffAfter(rounds[..i], max);
            BackoffAfter(rounds[..i + 1], max) == Min(max, 2 * before + rounds[i].jitter)
  {
    assert rounds[..i + 1][..i] == rounds[..i] && rounds[..0] == [];
  }

  /** The loop of the client over the given rounds; the delays it sleeps, one a round. */
  method Run(max: int, rounds: seq<Round>) returns (slept: seq<int>)
    ensures |slept| == |rounds|
    ensures forall i :: 0 <= i < |rounds| ==> slept[i] == BackoffAfter(rounds[..i + 1], max)
    ensures forall i :: 0 <= i < |rounds| ==> Doubles(slept, rounds, max, i)
  {
    slept := [];
    var backoff := BASE;
    for i := 0 to |rounds|
      invariant |slept| == i && backoff == BackoffAfter(rounds[..i], max)
      invariant forall j :: 0 <= j < i ==> slept[j] == BackoffAfter(rounds[..j + 1], max)
    {
      assert rounds[..i + 1][..i] == rounds[..i];
      match rounds[i] {
        case Failed(jitter) =>
          backoff := NextBackoff(backoff, jitter, max);
        case Lost(jitter) =>
          backoff := BASE;
          backoff := NextBackoff(backoff, jitter, max);
      }
      slept := slept + [backoff];
    }
    assert rounds[..0] == [];
    forall i | 0 <= i < |rounds|
      ensures Doubles(slept, rounds, max, i)
    {
      OneRound(rounds, i, max);
    }
  }

  /** Rounds since the last connection, that round included. */
  function SinceReset(rounds: seq<Round>): nat
  {
    if rounds == [] then 0
    else if rounds[|rounds| - 1].Lost? then 1
    else SinceReset(rounds[..|rounds| - 1]) + 1
  }

  function Power(b: nat, k: nat): (p: nat)
    ensures b >= 1 ==> p >= 1
  {
    if k == 0 then 1 else b * Power(b, k - 1)
  }

  function Min(a: int, b: int): int
  {
    if a <= b then a else b
  }

  lemma DrawnPrefix(rounds: seq<Round>, max: int)
    requires rounds != [] && Drawn(rounds, max)
    ensures Drawn(rounds[..|rounds| - 1], max)
  {
    var n := |rounds| - 1;
    forall i | 0 <= i < n
      ensures rounds[..n][..i] == rounds[..i]
    {
    }
  }

  /**
   The envelope: the `k`-th delay since the last connection lies between `2^k` and `3^k` times the base,
   both cut at the maximum, however the jitter falls.
   */
  lemma {:induction false} DelayEnvelope(rounds: seq<Round>, max: int)
    requires rounds != [] && Drawn(rounds, max) && max >= 0
    ensures var k, d := SinceReset(rounds), BackoffAfter(rounds, max);
            Min(max, Power(2, k) * 100_000_000) <= d <= Min(max, Power(3, k) * 100_000_000)
  {
    var n := |rounds| - 1;
    DrawnPrefix(rounds, max);
    var prev := if rounds[n].Lost? then BASE else BackoffAfter(rounds[..n], max);
    assert 0 <= rounds[n].jitter <= prev;
    if rounds[n].Failed? && n > 0 {
      DelayEnvelope(rounds[..n], max);
    }
  }

  /** `k` failures in a row, with no jitter or with as much as there can be. */
  function Failures(k: nat, full: bool, max: int): seq<Round>
  {
    if k == 0 then []
    else
      var before := Failures(k - 1, full, max);
      before + [Failed(if full then BackoffAfter(before, max) else 0)]
  }

  lemma {:induction false} FailureDelay(k: nat, full: bool, max: int)
    requires max >= 0
    ensures BackoffAfter(Failures(k, full, max), max)
            == if k == 0 then BASE else Min(max, Power(if full then 3 else 2, k) * BASE)
  {
    if k > 0 {
      var before, rounds := Failures(k - 1, full, max), Failures(k, full, max);
      assert rounds[..|rounds| - 1] == before;
      FailureDelay(k - 1, full, max);
      if full {
        assert Power(3, k) == 3 * Power(3, k - 1);
      } else {
        assert Power(2, k) == 2 * Power(2, k - 1);
      }
    }
  }

  lemma {:induction false} DelayIsNonNegative(rounds: seq<Round>, max: int)
    requires Drawn(rounds, max) && max >= 0
    ensures BackoffAfter(rounds, max) >= 0
  {
    if rounds != [] {
      DrawnPrefix(rounds, max);
      DelayIsNonNegative(rounds[..|rounds| - 1], max);
      assert 0 <= rounds[|rounds| - 1].jitter;
    }
  }

  lemma DrawnOneMore(rounds: seq<Round>, jitter: int, max: int)
    requires Drawn(rounds, max) && 0 <= jitter <= BackoffAfter(rounds, max)
    ensures Drawn(rounds + [Failed(jitter)], max) && SinceReset(rounds + [Failed(jitter)]) == SinceReset(rounds) + 1
  {
    var more := rounds + [Failed(jitter)];
    forall i | 0 <= i <= |rounds|
      ensures more[..i] == rounds[..i] && (i < |rounds| ==> more[i] == rounds[i])
    {
    }
    assert rounds[..|rounds|] == rounds;
  }

  lemma {:induction false} FailuresAreDrawn(k: nat, full: bool, max: int)
    requires max >= 0
    ensures Drawn(Failures(k, full, max), max) && SinceReset(Failures(k, full, max)) == k
  {
    if k > 0 {
      var before := Failures(k - 1, full, max);
      FailuresAreDrawn(k - 1, full, max);
      DelayIsNonNegative(before, max);
      DrawnOneMore(before, if full then BackoffAfter(before, max) else 0, max);
    }
  }

  /** Both ends of the envelope are reached, for every `k`. */
  lemma EnvelopeIsReached(k: nat, full: bool, max: int)
    requires k >= 1 && max >= 0
    ensures var rounds := Failures(k, full, max);
            && Drawn(rounds, max) && SinceReset(rounds) == k
            && BackoffAfter(rounds, max) == Min(max, Power(if full then 3 else 2, k) * 100_000_000)
  {
    FailuresAreDrawn(k, full, max);
    FailureDelay(k, full, max);
  }

  /** So the delay is the maximum, at the latest, once `2^k` times the base reaches it. */
  lemma CapReached(rounds: seq<Round>, max: int)
    requires rounds != [] && Drawn(rounds, max) && 0 <= max <= Power(2, SinceReset(rounds)) * BASE
    ensures BackoffAfter(rounds, max) == max
  {
    DelayEnvelope(rounds, max);
  }

  /** Between two connections the delays never get shorter. */
  lemma DelaysGrow(rounds: seq<Round>, max: int)
    requires |rounds| >= 2 && Drawn(rounds, max) && max >= 0 && rounds[|rounds| - 1].Failed?
    ensures BackoffAfter(rounds[..|rounds| - 1], max) <= BackoffAfter(rounds, max)
  {
    var n := |rounds| - 1;
    DrawnPrefix(rounds, max);
    DelayEnvelope(rounds[..n], max);
    assert 0 <= rounds[n].jitter;
  }

  function TotalDelay(rounds: seq<Round>, max: int): int
  {
    if rounds == [] then 0 else TotalDelay(rounds[..|rounds| - 1], max) + BackoffAfter(rounds, max)
  }

  lemma {:induction false} PowerGrows(k: nat)
    requires k >= 1
    ensures Power(2, k) >= 2
  {
    if k > 1 {
      PowerGrows(k - 1);
    }
  }

  /** The delays slept since the last connection. */
  function TotalSince(rounds: seq<Round>, max: int): int
  {
    if rounds == [] then 0
    else
      var n := |rounds| - 1;
      (if rounds[n].Lost? then 0 else TotalSince(rounds[..n], max)) + BackoffAfter(rounds, max)
  }

  /** The sum of the first `k` powers of `b` times the base, each cut at the maximum. */
  function Envelope(b: nat, k: nat, max: int): int
  {
    if k == 0 then 0 else Envelope(b, k - 1, max) + Min(max, Power(b, k) * BASE)
  }

  /** How often it can try without a connection: `k` attempts take a time between the two envelopes' sums. */
  lemma {:induction false} TotalEnvelope(rounds: seq<Round>, max: int)
    requires Drawn(rounds, max) && max >= 0
    ensures var k := SinceReset(rounds);
            Envelope(2, k, max) <= TotalSince(rounds, max) <= Envelope(3, k, max)
  {
    if rounds != [] {
      var n := |rounds| - 1;
      DelayEnvelope(rounds, max);
      if rounds[n].Failed? {
        DrawnPrefix(rounds, max);
        TotalEnvelope(rounds[..n], max);
      } else {
        assert SinceReset(rounds) == 1 && Envelope(2, 0, max) == 0 == Envelope(3, 0, max);
      }
    }
  }

  /** `k` doubled delays and `j` at the maximum. */
  lemma {:induction false} EnvelopeInTwoParts(k: nat, j: nat, max: int)
    requires Power(2, k) * BASE <= max <= Power(2, k + 1) * BASE
    ensures Envelope(2, k + j, max) == (Power(2, k + 1) - 2) * BASE + j * max
  {
    if j > 0 {
      EnvelopeInTwoParts(k, j - 1, max);
      PowerMonotone(k + 1, k + j);
      assert (j - 1) * max + max == j * max;
    } else if k > 0 {
      Doubling(k, max);
    }
  }

  lemma {:induction false} PowerMonotone(i: nat, j: nat)
    requires i <= j
    ensures Power(2, i) <= Power(2, j)
    decreases j - i
  {
    if i < j {
      PowerMonotone(i, j - 1);
    }
  }

  lemma {:induction false} Doubling(k: nat, max: int)
    requires Power(2, k) * BASE <= max
    ensures Envelope(2, k, max) == (Power(2, k + 1) - 2) * BASE
  {
    if k > 0 {
      PowerMonotone(k - 1, k);
      Doubling(k - 1, max);
    }
  }

  /**
   So as long as doubling has not reached the maximum, within a time below `2^(k+1) - 2` bases there are
   fewer than `k` attempts since the last connection: they grow with the logarithm of the time.
   */
  lemma AttemptsInTime(rounds: seq<Round>, max: int, k: nat)
    requires Drawn(rounds, max) && Power(2, k) * BASE <= max
    requires TotalSince(rounds, max) < (Power(2, k + 1) - 2) * BASE
    ensures SinceReset(rounds) < k
  {
    if SinceReset(rounds) >= k {
      TotalEnvelope(rounds, max);
      Doubling(k, max);
      EnvelopeMonotone(k, SinceReset(rounds), max);
    }
  }

  /** And where the next doubling would pass the maximum, each further attempt takes the maximum more. */
  lemma AttemptsAtCap(rounds: seq<Round>, max: int, k: nat, j: nat)
    requires Drawn(rounds, max) && Power(2, k) * BASE <= max <= Power(2, k + 1) * BASE
    requires TotalSince(rounds, max) < (Power(2, k + 1) - 2) * BASE + j * max
    ensures SinceReset(rounds) < k + j
  {
    if SinceReset(rounds) >= k + j {
      TotalEnvelope(rounds, max);
      EnvelopeInTwoParts(k, j, max);
      EnvelopeMonotone(k + j, SinceReset(rounds), max);
    }
  }

  lemma {:induction false} EnvelopeMonotone(i: nat, j: nat, max: int)
    requires i <= j && max >= 0
    ensures Envelope(2, i, max) <= Envelope(2, j, max)
    decreases j - i
  {
    if i < j {
      EnvelopeMonotone(i, j - 1, max);
    }
  }

  /**
   How often it can try: `n` rounds, with or without connections in between, sleep at least `n` times the
   smaller of the maximum and twice the base.
   */
  lemma {:induction false} AttemptsAreSpaced(rounds: seq<Round>, max: int)
    requires Drawn(rounds, max) && max >= 0
    ensures TotalDelay(rounds, max) >= |rounds| * Min(max, 2 * BASE)
  {
    if rounds != [] {
      var n := |rounds| - 1;
      DrawnPrefix(rounds, max);
      AttemptsAreSpaced(rounds[..n], max);
      DelayEnvelope(rounds, max);
      PowerGrows(SinceReset(rounds));
      assert n * Min(max, 2 * BASE) + Min(max, 2 * BASE) == |rounds| * Min(max, 2 * BASE);
    }
  }
}
