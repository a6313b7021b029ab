/**
 Why replaying diffs over a snapshot of another moment gives the venue's book: diffs are absolute, so what
 a run of diffs does to a price depends on the price's earlier state only if the run never touches it.
 The venue is an oracle for one side: a first state and its numbered diffs, in which any spelling of zero
 removes a price. A snapshot lists part of the venue's side, or all of it.
 */
module Convergence {
  import opened Wrappers
  import opened Levels
  import opened OrderBook

  type Diffs = seq<seq<Level>>

  /** What the reconstructor makes of a run of diffs. */
  function Replay(side: Side, ds: Diffs): Side
  {
    if ds == [] then side else Overlay(Replay(side, ds[..|ds| - 1]), ds[|ds| - 1])
  }

  /** What the venue means by it. */
  function Evolve(side: Side, ds: Diffs): Side
  {
    if ds == [] then side else Meant(Evolve(side, ds[..|ds| - 1]), ds[|ds| - 1])
  }

  /** The venue's side after its `k`-th diff. */
  function VenueAt(start: Side, ds: Diffs, k: nat): Side
    requires k <= |ds|
  {
    Evolve(start, ds[..k])
  }

  /** The size a price ends on in a run of diffs, if any of them touches it. */
  function Ending(ds: Diffs, p: string): Option<string>
  {
    if ds == [] then None
    else
      var last := LastEntry(ds[|ds| - 1], p);
      if last.Some? then last else Ending(ds[..|ds| - 1], p)
  }

  predicate TouchedBy(ds: Diffs, p: string)
  {
    Ending(ds, p).Some?
  }

  /** The price does not end on a zero that the code takes for a size. */
  predicate PlainAt(ds: Diffs, p: string)
  {
    TouchedBy(ds, p) && SpellsZero(Ending(ds, p).value) ==> Ending(ds, p).value == "0" || Ending(ds, p).value == ""
  }

  ghost predicate Plain(ds: Diffs)
  {
    forall p :: PlainAt(ds, p)
  }

  /** After a run of diffs a touched price has the size it ends on, or is gone; an untouched one is as before. */
  lemma {:induction false} ReplayEnding(side: Side, ds: Diffs, p: string)
    ensures SizeAt(Replay(side, ds), p)
            == if !TouchedBy(ds, p) then SizeAt(side, p)
               else if Ending(ds, p).value == "0" || Ending(ds, p).value == "" then None else Ending(ds, p)
  {
    if ds != [] {
      var n := |ds| - 1;
      var before := Replay(side, ds[..n]);
      if Touches(ds[n], p) {
        var i := LastExists(ds[n], p);
        LastEntryAt(ds[n], p, i);
        OverlayLastWriter(before, ds[n], p, i);
      } else {
        NoEntry(ds[n], p);
        OverlayUntouched(before, ds[n], p);
        ReplayEnding(side, ds[..n], p);
      }
    }
  }

  lemma {:induction false} EvolveEnding(side: Side, ds: Diffs, p: string)
    ensures SizeAt(Evolve(side, ds), p)
            == if !TouchedBy(ds, p) then SizeAt(side, p)
               else if SpellsZero(Ending(ds, p).value) then None else Ending(ds, p)
  {
    if ds != [] {
      var n := |ds| - 1;
      var before := Evolve(side, ds[..n]);
      if Touches(ds[n], p) {
        var i := LastExists(ds[n], p);
        LastEntryAt(ds[n], p, i);
        MeantLastWriter(before, ds[n], p, i);
      } else {
        NoEntry(ds[n], p);
        MeantUntouched(before, ds[n], p);
        EvolveEnding(side, ds[..n], p);
      }
    }
  }

  lemma {:induction false} EndingSplit(a: Diffs, b: Diffs, p: string)
    ensures Ending(a + b, p) == if TouchedBy(b, p) then Ending(b, p) else Ending(a, p)
  {
    if b == [] {
      assert a + b == a;
    } else {
      assert (a + b)[..|a + b| - 1] == a + b[..|b| - 1];
      EndingSplit(a, b[..|b| - 1], p);
    }
  }

  /** From one moment of the venue to a later one. */
  lemma VenueAdvances(start: Side, ds: Diffs, j: nat, k: nat, p: string)
    requires j <= k <= |ds|
    ensures SizeAt(VenueAt(start, ds, k), p)
            == if !TouchedBy(ds[j..k], p) then SizeAt(VenueAt(start, ds, j), p)
               else if SpellsZero(Ending(ds[j..k], p).value) then None else Ending(ds[j..k], p)
  {
    assert ds[..k] == ds[..j] + ds[j..k];
    EndingSplit(ds[..j], ds[j..k], p);
    EvolveEnding(start, ds[..k], p);
    EvolveEnding(start, ds[..j], p);
  }

  lemma UntouchedInside(ds: Diffs, p: string, j: nat, m: nat, k: nat)
    requires j <= m <= k <= |ds| && !TouchedBy(ds[j..k], p)
    ensures !TouchedBy(ds[j..m], p) && !TouchedBy(ds[m..k], p)
  {
    assert ds[j..k] == ds[j..m] + ds[m..k];
    EndingSplit(ds[j..m], ds[m..k], p);
  }

  // ---- Snapshots ----

  /** `listed` is some of the entries of `side`. */
  predicate PartOf(listed: Side, side: Side)
  {
    forall p :: p in listed ==> p in side && side[p] == listed[p]
  }

  /** The part of a side a reconstructor can know: what its snapshot listed and what a diff touched. */
  function Known(side: Side, listed: Side, ds: Diffs): Side
  {
    map p | p in side && (p in listed || TouchedBy(ds, p)) :: side[p]
  }

  /**
   A snapshot of moment `s` overlaid with the diffs `f..l` is the venue's side at `l` on every price listed
   or touched, and has nothing else.
   */
  ghost predicate Converges(start: Side, ds: Diffs, listed: Side, f: nat, l: nat)
    requires 1 <= f <= l + 1 <= |ds| + 1
  {
    Replay(listed, ds[f - 1..l]) == Known(VenueAt(start, ds, l), listed, ds[f - 1..l])
  }

  lemma ConvergesAt(start: Side, ds: Diffs, listed: Side, s: nat, f: nat, l: nat, p: string)
    requires 1 <= f <= s + 1 <= l + 1 <= |ds| + 1 && PartOf(listed, VenueAt(start, ds, s))
    ensures var run := ds[f - 1..l];
            SizeAt(Replay(listed, run), p) == SizeAt(Known(VenueAt(start, ds, l), listed, run), p) <==> PlainAt(run, p)
  {
    var run := ds[f - 1..l];
    ReplayEnding(listed, run, p);
    VenueAdvances(start, ds, f - 1, l, p);
    if !TouchedBy(run, p) {
      UntouchedInside(ds, p, f - 1, s, l);
      VenueAdvances(start, ds, s, l, p);
    }
  }

  /**
   If the diffs reach back to the snapshot and have passed it, the result is right exactly when no price
   ends on a zero spelled differently from "0" and "".
   */
  lemma SpellingExact(start: Side, ds: Diffs, listed: Side, s: nat, f: nat, l: nat)
    requires 1 <= f <= s + 1 <= l + 1 <= |ds| + 1 && PartOf(listed, VenueAt(start, ds, s))
    ensures Converges(start, ds, listed, f, l) <==> Plain(ds[f - 1..l])
  {
    var run := ds[f - 1..l];
    var got, want := Replay(listed, run), Known(VenueAt(start, ds, l), listed, run);
    forall p
      ensures SizeAt(got, p) == SizeAt(want, p) <==> PlainAt(run, p)
    {
      ConvergesAt(start, ds, listed, s, f, l, p);
    }
    if Plain(run) {
      forall p
        ensures SizeAt(got, p) == SizeAt(want, p)
      {
        assert PlainAt(run, p);
      }
      SidesEqual(got, want);
    }
  }

  /** From a snapshot of the whole side everything is known. */
  lemma WholeSnapshot(start: Side, ds: Diffs, s: nat, f: nat, l: nat)
    requires 1 <= f <= s + 1 <= l + 1 <= |ds| + 1
    ensures Known(VenueAt(start, ds, l), VenueAt(start, ds, s), ds[f - 1..l]) == VenueAt(start, ds, l)
  {
    var all := VenueAt(start, ds, l);
    forall p | p in all
      ensures p in VenueAt(start, ds, s) || TouchedBy(ds[f - 1..l], p)
    {
      if !TouchedBy(ds[f - 1..l], p) {
        UntouchedInside(ds, p, f - 1, s, l);
        VenueAdvances(start, ds, s, l, p);
        assert SizeAt(all, p) == SizeAt(VenueAt(start, ds, s), p);
      }
    }
  }

  // ---- Diffs that were missed ----

  /**
   Whatever the side was before, after the diffs `f..l` it is the venue's exactly when these spell removals
   plainly and every price they do not touch was already as the venue has it just before `f`.
   */
  lemma BaseExact(start: Side, ds: Diffs, base: Side, f: nat, l: nat)
    requires 1 <= f <= l + 1 <= |ds| + 1
    ensures Replay(base, ds[f - 1..l]) == VenueAt(start, ds, l)
            <==> && Plain(ds[f - 1..l])
                 && forall p :: TouchedBy(ds[f - 1..l], p) || SizeAt(base, p) == SizeAt(VenueAt(start, ds, f - 1), p)
  {
    var run := ds[f - 1..l];
    var got, want := Replay(base, run), VenueAt(start, ds, l);
    forall p
      ensures SizeAt(got, p) == SizeAt(want, p)
              <==> PlainAt(run, p) && (TouchedBy(run, p) || SizeAt(base, p) == SizeAt(VenueAt(start, ds, f - 1), p))
    {
      ReplayEnding(base, run, p);
      VenueAdvances(start, ds, f - 1, l, p);
    }
    if Plain(run) && forall p :: TouchedBy(run, p) || SizeAt(base, p) == SizeAt(VenueAt(start, ds, f - 1), p) {
      forall p
        ensures SizeAt(got, p) == SizeAt(want, p)
      {
        assert PlainAt(run, p);
      }
      SidesEqual(got, want);
    }
  }

  /** What a run of diffs makes of a price that it touches, in the venue's own reading. */
  function Settled(ds: Diffs, p: string): Option<string>
    requires TouchedBy(ds, p)
  {
    if SpellsZero(Ending(ds, p).value) then None else Ending(ds, p)
  }

  /** The diffs after `j` and before `f` leave every price as it was, unless one of `f..l` touches it again. */
  ghost predicate MadeUpFor(start: Side, ds: Diffs, j: nat, f: nat, l: nat)
    requires j < f <= l + 1 <= |ds| + 1
  {
    forall p :: TouchedBy(ds[j..f - 1], p) && !TouchedBy(ds[f - 1..l], p) ==>
      Settled(ds[j..f - 1], p) == SizeAt(VenueAt(start, ds, j), p)
  }

  /** A side that was the venue's at `j` and then missed all diffs before `f`. */
  lemma MissedExact(start: Side, ds: Diffs, j: nat, f: nat, l: nat)
    requires j < f <= l + 1 <= |ds| + 1
    ensures Replay(VenueAt(start, ds, j), ds[f - 1..l]) == VenueAt(start, ds, l)
            <==> Plain(ds[f - 1..l]) && MadeUpFor(start, ds, j, f, l)
  {
    BaseExact(start, ds, VenueAt(start, ds, j), f, l);
    forall p
      ensures SizeAt(VenueAt(start, ds, j), p) == SizeAt(VenueAt(start, ds, f - 1), p)
              <==> (TouchedBy(ds[j..f - 1], p) ==> Settled(ds[j..f - 1], p) == SizeAt(VenueAt(start, ds, j), p))
    {
      VenueAdvances(start, ds, j, f - 1, p);
    }
  }

  /** A venue whose one price changes size once, at its `k`-th diff. */
  const ONE_BID: Side := map["1" := "1"]

  function OneChange(n: nat, k: nat): (ds: Diffs)
    ensures |ds| == n
  {
    seq(n, i => if i + 1 == k then [Level("1", "2")] else [])
  }

  lemma {:induction false} OneChangeEnding(n: nat, k: nat, a: nat, b: nat)
    requires a <= b <= n
    ensures Ending(OneChange(n, k)[a..b], "1") == if a < k <= b then Some("2") else None
    ensures forall p :: PlainAt(OneChange(n, k)[a..b], p)
    decreases b - a
  {
    var ds := OneChange(n, k);
    if a < b {
      OneChangeEnding(n, k, a, b - 1);
      assert ds[a..b][..b - a - 1] == ds[a..b - 1];
      forall p
        ensures PlainAt(ds[a..b], p)
      {
        assert PlainAt(ds[a..b - 1], p);
        OneEntry(p);
      }
      OneEntry("1");
    }
  }

  lemma {:induction false} OneChangeOthers(n: nat, k: nat, b: nat, p: string)
    requires b <= n
    ensures p != "1" ==> Ending(OneChange(n, k)[..b], p) == None
  {
    var ds := OneChange(n, k);
    if b > 0 {
      OneChangeOthers(n, k, b - 1, p);
      assert ds[..b][..b - 1] == ds[..b - 1];
      OneEntry(p);
    }
  }

  lemma OneEntry(p: string)
    ensures LastEntry([Level("1", "2")], p) == if p == "1" then Some("2") else None
    ensures !SpellsZero("2")
  {
    assert [Level("1", "2")][..0] == [];
    assert "2"[0] == '2';
  }

  lemma OneChangeDiverges(s: nat, f: nat, l: nat, n: nat)
    requires 1 <= f <= l + 1 <= n + 1 && s <= n && !(f <= s + 1 <= l + 1)
    ensures var ds := OneChange(n, if f > s + 1 then s + 1 else s);
            Plain(ds[f - 1..l]) && !Converges(ONE_BID, ds, VenueAt(ONE_BID, ds, s), f, l)
  {
    var k := if f > s + 1 then s + 1 else s;
    var ds := OneChange(n, k);
    assert ds[..s] == ds[0..s] && ds[..l] == ds[0..l];
    OneChangeEnding(n, k, 0, s);
    OneChangeEnding(n, k, 0, l);
    OneChangeEnding(n, k, f - 1, l);
    EvolveEnding(ONE_BID, ds[..s], "1");
    EvolveEnding(ONE_BID, ds[..l], "1");
    ReplayEnding(VenueAt(ONE_BID, ds, s), ds[f - 1..l], "1");
    OneEntry("1");
    var got := Replay(VenueAt(ONE_BID, ds, s), ds[f - 1..l]);
    var want := Known(VenueAt(ONE_BID, ds, l), VenueAt(ONE_BID, ds, s), ds[f - 1..l]);
    assert SizeAt(got, "1") != SizeAt(want, "1");
  }

  /**
   Exactly when a snapshot of moment `s`, of any part of the side, and diffs `f..l` that spell removals
   plainly are enough whatever the venue does: when no diff is missing between the snapshot and the first
   one applied, and the snapshot has been passed. A first diff that is too late (as nothing prevents at
   startup) loses a change for good; a replay that has not reached the snapshot yet shows a mixture.
   */
  lemma ConvergenceExact(s: nat, f: nat, l: nat, n: nat)
    requires 1 <= f <= l + 1 <= n + 1 && s <= n
    ensures (forall start: Side, ds: Diffs, listed: Side ::
               |ds| == n && Plain(ds[f - 1..l]) && PartOf(listed, VenueAt(start, ds, s)) ==>
                 Converges(start, ds, listed, f, l))
            <==> f <= s + 1 <= l + 1
  {
    if f <= s + 1 <= l + 1 {
      forall start: Side, ds: Diffs, listed: Side
        | |ds| == n && Plain(ds[f - 1..l]) && PartOf(listed, VenueAt(start, ds, s))
        ensures Converges(start, ds, listed, f, l)
      {
        SpellingExact(start, ds, listed, s, f, l);
      }
    } else {
      OneChangeDiverges(s, f, l, n);
      var ds := OneChange(n, if f > s + 1 then s + 1 else s);
      assert PartOf(VenueAt(ONE_BID, ds, s), VenueAt(ONE_BID, ds, s));
    }
  }

  /** While the replay is behind the snapshot, the side shown may be one the venue never had. */
  lemma ReplayMixesStates(ds: Diffs)
    requires ds == [[Level("1", "1")], [Level("1", "0")], [Level("2", "1")]]
    ensures forall k: nat :: k <= 3 ==> Replay(VenueAt(map[], ds, 3), ds[0..1]) != VenueAt(map[], ds, k)
  {
    var v1, v2, v3 := map["1" := "1"], map[], map["2" := "1"];
    assert ds[..1] == [ds[0]] && ds[..2][..1] == ds[..1] && ds[..3][..2] == ds[..2] && ds[0..1] == [ds[0]];
    assert !SpellsZero("1") by {
      assert "1"[0] == '1';
    }
    assert Meant(map[], ds[0]) == v1 && Meant(v1, ds[1]) == v2 && Meant(v2, ds[2]) == v3;
    assert Overlay(v3, ds[0]) == v3["1" := "1"];
    assert Evolve(map[], ds[..0]) == map[];
    assert ds[..1][..0] == ds[..0] && Evolve(map[], ds[..1]) == v1;
    assert Evolve(map[], ds[..2]) == Meant(v1, ds[1]);
    assert Evolve(map[], ds[..3]) == Meant(v2, ds[2]);
    assert ds[0..1][..0] == [] && Replay(v3, ds[0..1]) == Overlay(v3, ds[0]);
    assert "1" in v3["1" := "1"] && "2" in v3["1" := "1"];
    forall k: nat | k <= 3
      ensures "1" !in VenueAt(map[], ds, k) || "2" !in VenueAt(map[], ds, k)
    {
      assert k == 0 || k == 1 || k == 2 || k == 3;
    }
  }
}
