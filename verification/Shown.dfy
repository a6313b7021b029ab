/**
 What a reconstructor that knows only part of a side may show of it: when the first levels of the part are
 the first levels of the whole, exactly.
 */
module Shown {
  import opened StringOrder
  import opened Levels
  import opened OrderBook
  import opened Convergence
  import PriceOrder

  /** The prices of `side` up to and including `worst`. */
  function NotAfter(side: Side, descending: bool, worst: string): set<string>
  {
    set p | p in side && !Before(worst, p, descending)
  }

  /** A snapshot of `side` that lists everything up to `worst`. */
  ghost predicate Covers(listed: Side, side: Side, descending: bool, worst: string)
  {
    && PartOf(listed, side)
    && forall p :: p in side && !Before(worst, p, descending) ==> p in listed
  }

  function PricesOf(s: seq<Level>): set<string>
  {
    set x | x in s :: x.price
  }

  lemma {:induction false} PricesCount(s: seq<Level>, descending: bool)
    requires StrictlySorted(s, descending)
    ensures |PricesOf(s)| == |s|
  {
    if s != [] {
      var n := |s| - 1;
      PricesCount(s[..n], descending);
      assert s == s[..n] + [s[n]];
      assert PricesOf(s) == PricesOf(s[..n]) + {s[n].price};
      LastIsNew(s, descending);
    }
  }

  lemma LastIsNew(s: seq<Level>, descending: bool)
    requires s != [] && StrictlySorted(s, descending)
    ensures s[|s| - 1].price !in PricesOf(s[..|s| - 1])
  {
    var n := |s| - 1;
    forall x | x in s[..n]
      ensures x.price != s[n].price
    {
      var i :| 0 <= i < n && s[..n][i] == x;
      BeforeTotal(s[i].price, s[n].price, descending);
    }
  }

  lemma SubsetCount(a: set<string>, b: set<string>)
    requires a <= b
    ensures |a| <= |b|
  {
    assert b == a + (b - a);
  }

  /** Without one of the levels there are fewer prices. */
  lemma CountWithout(a: set<string>, b: set<string>, t: string)
    requires a <= b && t in b && t !in a
    ensures |a| < |b|
  {
    SubsetCount(a, b - {t});
  }

  // ---- A list is the first levels of a side if it is sorted and nothing belongs before its end ----

  lemma FirstLevels(m: Side, descending: bool, n: nat, top: seq<Level>)
    requires |top| == n && StrictlySorted(top, descending)
    requires forall x :: x in top ==> x.price in m && m[x.price] == x.size
    requires forall x, q :: x in top && q in m && Level(q, m[q]) !in top ==> Before(x.price, q, descending)
    ensures TopLevels(m, descending, n) == top
  {
    var rest := m - PricesOf(top);
    var tail := Ranking(rest, descending);
    RankingIsRanking(rest, descending);
    ListedOnce(m, descending, top);
    RankingIsRanking(m, descending);
    RankingUnique(top + tail, Ranking(m, descending), m, descending);
    assert (top + tail)[..n] == top;
  }

  lemma ListedOnce(m: Side, descending: bool, top: seq<Level>)
    requires StrictlySorted(top, descending)
    requires forall x :: x in top ==> x.price in m && m[x.price] == x.size
    requires forall x, q :: x in top && q in m && Level(q, m[q]) !in top ==> Before(x.price, q, descending)
    ensures IsRanking(top + Ranking(m - PricesOf(top), descending), m, descending)
  {
    var rest := m - PricesOf(top);
    var tail := Ranking(rest, descending);
    RankingIsRanking(rest, descending);
    var all := top + tail;
    forall p, q | 0 <= p < q < |all|
      ensures Before(all[p].price, all[q].price, descending)
    {
      if p < |top| <= q {
        assert all[q] in tail && all[q].price in rest && all[p] in top;
        assert Level(all[q].price, m[all[q].price]) !in top;
      }
    }
    forall x
      ensures x in all <==> x.price in m && m[x.price] == x.size
    {
      if x.price in m && m[x.price] == x.size && x !in tail {
        var y :| y in top && y.price == x.price;
        assert y == x;
      }
    }
  }

  // ---- Enough known levels ----

  lemma TopNotAfter(k: Side, descending: bool, n: nat, worst: string)
    requires |NotAfter(k, descending, worst)| >= n
    ensures |TopLevels(k, descending, n)| == n
    ensures forall x :: x in TopLevels(k, descending, n) ==> !Before(worst, x.price, descending)
  {
    var near, top := NotAfter(k, descending, worst), TopLevels(k, descending, n);
    assert near <= k.Keys;
    SubsetCount(near, k.Keys);
    TopLevelsAreBest(k, descending, n);
    PricesCount(top, descending);
    forall x | x in top
      ensures !Before(worst, x.price, descending)
    {
      if Before(worst, x.price, descending) {
        NearAreShown(k, descending, n, worst, x);
        CountWithout(near, PricesOf(top), x.price);
      }
    }
  }

  /** If a level shown lies after `worst`, all prices up to `worst` are shown as well. */
  lemma NearAreShown(k: Side, descending: bool, n: nat, worst: string, x: Level)
    requires x in TopLevels(k, descending, n) && Before(worst, x.price, descending)
    ensures NotAfter(k, descending, worst) <= PricesOf(TopLevels(k, descending, n))
    ensures x.price !in NotAfter(k, descending, worst)
  {
    var top := TopLevels(k, descending, n);
    TopLevelsAreBest(k, descending, n);
    forall p | p in NotAfter(k, descending, worst)
      ensures p in PricesOf(top)
    {
      if Level(p, k[p]) !in top {
        assert Before(x.price, p, descending);
        BeforeTransitive(worst, x.price, p, descending);
      }
    }
  }

  /**
   If everything of `m` up to `worst` is known and the known levels up to there are at least `n`, the first
   `n` known levels are the first `n` levels.
   */
  lemma EnoughKnown(k: Side, m: Side, descending: bool, n: nat, worst: string)
    requires Covers(k, m, descending, worst) && |NotAfter(k, descending, worst)| >= n
    ensures TopLevels(k, descending, n) == TopLevels(m, descending, n)
  {
    var top := TopLevels(k, descending, n);
    TopNotAfter(k, descending, n, worst);
    TopLevelsAreBest(k, descending, n);
    forall x, q | x in top && q in m && Level(q, m[q]) !in top
      ensures Before(x.price, q, descending)
    {
      if q !in k {
        UpToThenAfter(x.price, worst, q, descending);
      }
    }
    FirstLevels(m, descending, n, top);
  }

  lemma UpToThenAfter(x: string, worst: string, q: string, descending: bool)
    requires !Before(worst, x, descending) && Before(worst, q, descending)
    ensures Before(x, q, descending)
  {
    BeforeTotal(worst, x, descending);
    if x != worst {
      BeforeTransitive(x, worst, q, descending);
    }
  }

  /** One unknown level that belongs next after `worst` is enough to go wrong when fewer are known. */
  lemma HiddenIsMissed(k: Side, m: Side, descending: bool, n: nat, worst: string, x: string)
    requires |NotAfter(k, descending, worst)| < n && x in m && x !in k
    requires forall y :: y in k && Before(y, x, descending) ==> !Before(worst, y, descending)
    ensures TopLevels(k, descending, n) != TopLevels(m, descending, n)
  {
    var top := TopLevels(m, descending, n);
    TopLevelsAreBest(k, descending, n);
    TopLevelsAreBest(m, descending, n);
    if top == TopLevels(k, descending, n) {
      assert Level(x, m[x]) !in top;
      AllShownIfShort(m, descending, n, x);
      forall p | p in PricesOf(top)
        ensures p in NotAfter(k, descending, worst)
      {
        var y :| y in top && y.price == p;
        assert Before(p, x, descending);
      }
      PricesCount(top, descending);
      SubsetCount(PricesOf(top), NotAfter(k, descending, worst));
    }
  }

  lemma AllShownIfShort(m: Side, descending: bool, n: nat, x: string)
    requires x in m && Level(x, m[x]) !in TopLevels(m, descending, n)
    ensures |TopLevels(m, descending, n)| == n
  {
    assert Level(x, m[x]) in Ranking(m, descending);
  }

  // ---- Prices as venues write them leave room for others ----

  /** No price contains the zero character. */
  predicate Written(p: string)
  {
    forall i :: 0 <= i < |p| ==> p[i] != '\0'
  }

  lemma {:induction false} NextString(w: string)
    ensures Less(w, w + ['\0']) && !Written(w + ['\0'])
  {
    assert (w + ['\0'])[|w|] == '\0';
    if w != "" {
      NextString(w[1..]);
      assert (w + ['\0'])[1..] == w[1..] + ['\0'];
    }
  }

  /** Nothing written lies between a string and the next. */
  lemma {:induction false} NothingBetween(w: string, y: string)
    requires Less(w, y) && Written(y)
    ensures Less(w + ['\0'], y)
  {
    if w != "" && w[0] == y[0] {
      assert Written(y[1..]);
      NothingBetween(w[1..], y[1..]);
      assert (w + ['\0'])[1..] == w[1..] + ['\0'];
    }
  }

  /** A price a venue could hold just after `worst`, before anything of `k` that comes later. */
  lemma RoomAfter(k: Side, descending: bool, worst: string) returns (x: string)
    requires Written(worst) && worst != "" && forall p :: p in k ==> Written(p)
    ensures !Written(x) && Before(worst, x, descending)
    ensures forall y :: y in k && Before(y, x, descending) ==> !Before(worst, y, descending)
  {
    if descending {
      var later := set p | p in k && Less(p, worst);
      var next := "";
      if later != {} {
        FirstExists(later, true);
        next :| IsFirst(next, later, true);
      }
      x := next + ['\0'];
      NextString(next);
      NothingBetween(next, worst);
      forall y | y in k && Less(y, worst)
        ensures !Less(x, y)
      {
        assert y in later;
        if y != next {
          LessTransitive(y, next, x);
        }
        LessTrichotomy(y, x);
      }
    } else {
      x := worst + ['\0'];
      NextString(worst);
      forall y | y in k && Less(worst, y)
        ensures !Less(y, x)
      {
        NothingBetween(worst, y);
        LessTrichotomy(y, x);
      }
    }
  }

  // ---- The side shown after a snapshot and a run of diffs ----

  ghost predicate WrittenDiffs(ds: Diffs)
  {
    forall p :: TouchedBy(ds, p) ==> Written(p)
  }

  lemma KnownCovers(start: Side, ds: Diffs, listed: Side, s: nat, f: nat, l: nat, descending: bool, worst: string)
    requires 1 <= f <= s + 1 <= l + 1 <= |ds| + 1
    requires Covers(listed, VenueAt(start, ds, s), descending, worst)
    ensures Covers(Known(VenueAt(start, ds, l), listed, ds[f - 1..l]), VenueAt(start, ds, l), descending, worst)
  {
    forall p | p in VenueAt(start, ds, l) && !Before(worst, p, descending)
      ensures p in listed || TouchedBy(ds[f - 1..l], p)
    {
      if !TouchedBy(ds[f - 1..l], p) {
        UntouchedInside(ds, p, f - 1, s, l);
        VenueAdvances(start, ds, s, l, p);
        assert SizeAt(VenueAt(start, ds, l), p) == SizeAt(VenueAt(start, ds, s), p);
      }
    }
  }

  /** The first `n` levels shown are the venue's, given enough of them up to the worst level listed. */
  lemma ShownIsVenue(
      start: Side, ds: Diffs, listed: Side, s: nat, f: nat, l: nat, descending: bool, worst: string, n: nat)
    requires 1 <= f <= s + 1 <= l + 1 <= |ds| + 1 && Plain(ds[f - 1..l])
    requires Covers(listed, VenueAt(start, ds, s), descending, worst)
    requires |NotAfter(Replay(listed, ds[f - 1..l]), descending, worst)| >= n
    ensures TopLevels(Replay(listed, ds[f - 1..l]), descending, n) == TopLevels(VenueAt(start, ds, l), descending, n)
  {
    SpellingExact(start, ds, listed, s, f, l);
    KnownCovers(start, ds, listed, s, f, l, descending, worst);
    EnoughKnown(Replay(listed, ds[f - 1..l]), VenueAt(start, ds, l), descending, n, worst);
  }

  /** The venue with one more price that nobody has mentioned. */
  lemma WithHidden(start: Side, ds: Diffs, j: nat, x: string)
    requires j <= |ds| && WrittenDiffs(ds) && !Written(x)
    ensures VenueAt(start[x := "1"], ds, j) == VenueAt(start, ds, j)[x := "1"]
  {
    var a, b := VenueAt(start[x := "1"], ds, j), VenueAt(start, ds, j)[x := "1"];
    forall p
      ensures SizeAt(a, p) == SizeAt(b, p)
    {
      EvolveEnding(start[x := "1"], ds[..j], p);
      EvolveEnding(start, ds[..j], p);
      if p == x {
        assert ds == ds[..j] + ds[j..];
        EndingSplit(ds[..j], ds[j..], x);
      }
    }
    SidesEqual(a, b);
  }

  lemma ReplayWritten(listed: Side, ds: Diffs, f: nat, l: nat, p: string)
    requires 1 <= f <= l + 1 <= |ds| + 1 && WrittenDiffs(ds) && (p in listed ==> Written(p))
    requires p in Replay(listed, ds[f - 1..l])
    ensures Written(p)
  {
    ReplayEnding(listed, ds[f - 1..l], p);
    assert ds == ds[..f - 1] + ds[f - 1..l] + ds[l..];
    EndingSplit(ds[..f - 1] + ds[f - 1..l], ds[l..], p);
    EndingSplit(ds[..f - 1], ds[f - 1..l], p);
  }

  lemma TooFewKnown(
      start: Side, ds: Diffs, listed: Side, s: nat, f: nat, l: nat, descending: bool, worst: string, n: nat)
    returns (start': Side)
    requires 1 <= f <= s + 1 <= l + 1 <= |ds| + 1 && WrittenDiffs(ds)
    requires Covers(listed, VenueAt(start, ds, s), descending, worst)
    requires worst != "" && Written(worst) && forall p :: p in listed ==> Written(p)
    requires |NotAfter(Replay(listed, ds[f - 1..l]), descending, worst)| < n
    ensures Covers(listed, VenueAt(start', ds, s), descending, worst)
    ensures TopLevels(Replay(listed, ds[f - 1..l]), descending, n) != TopLevels(VenueAt(start', ds, l), descending, n)
  {
    var k := Replay(listed, ds[f - 1..l]);
    forall p | p in k
      ensures Written(p)
    {
      ReplayWritten(listed, ds, f, l, p);
    }
    var x := RoomAfter(k, descending, worst);
    start' := start[x := "1"];
    WithHidden(start, ds, s, x);
    WithHidden(start, ds, l, x);
    HiddenIsMissed(k, VenueAt(start', ds, l), descending, n, worst, x);
  }

  /**
   Exactly when the first `n` levels shown are right whatever else the venue holds. A snapshot of moment
   `s` lists everything up to `worst`; the diffs `f..l` join on and have passed it. The levels shown are the
   venue's first `n` for every venue with that snapshot and those diffs if and only if at least `n` of the
   levels known at `l` lie at or before `worst`.
   */
  lemma ShownExact(
      start: Side, ds: Diffs, listed: Side, s: nat, f: nat, l: nat, descending: bool, worst: string, n: nat)
    requires 1 <= f <= s + 1 <= l + 1 <= |ds| + 1 && Plain(ds[f - 1..l]) && WrittenDiffs(ds)
    requires Covers(listed, VenueAt(start, ds, s), descending, worst)
    requires worst != "" && Written(worst) && forall p :: p in listed ==> Written(p)
    ensures (forall start': Side :: Covers(listed, VenueAt(start', ds, s), descending, worst) ==>
               TopLevels(Replay(listed, ds[f - 1..l]), descending, n)
               == TopLevels(VenueAt(start', ds, l), descending, n))
            <==> |NotAfter(Replay(listed, ds[f - 1..l]), descending, worst)| >= n
  {
    if |NotAfter(Replay(listed, ds[f - 1..l]), descending, worst)| >= n {
      forall start': Side | Covers(listed, VenueAt(start', ds, s), descending, worst)
        ensures TopLevels(Replay(listed, ds[f - 1..l]), descending, n)
                == TopLevels(VenueAt(start', ds, l), descending, n)
      {
        ShownIsVenue(start', ds, listed, s, f, l, descending, worst, n);
      }
    } else {
      var start' := TooFewKnown(start, ds, listed, s, f, l, descending, worst, n);
    }
  }

  // ---- Snapshots that list the best levels ----

  /** A snapshot of all levels is the whole side. */
  lemma AllLevelsLoad(m: Side, descending: bool, n: nat)
    requires |m| <= n
    ensures Load(TopLevels(m, descending, n)) == m
  {
    var top := TopLevels(m, descending, n);
    forall p
      ensures p in Load(top) <==> p in m
      ensures p in Load(top) ==> Load(top)[p] == m[p]
    {
      LoadedOnce(top, m, p);
      assert p in m ==> Level(p, m[p]) in Ranking(m, descending);
    }
  }

  /** A snapshot of the first `n` levels covers the side up to its last level. */
  lemma BestLevelsCover(m: Side, descending: bool, n: nat)
    requires 0 < n < |m|
    ensures Covers(Load(TopLevels(m, descending, n)), m, descending, TopLevels(m, descending, n)[n - 1].price)
  {
    var top := TopLevels(m, descending, n);
    var last := top[n - 1];
    TopLevelsAreBest(m, descending, n);
    assert last in top;
    forall p
      ensures p in Load(top) <==> p in m && Level(p, m[p]) in top
      ensures p in Load(top) ==> p in m && Load(top)[p] == m[p]
    {
      LoadedOnce(top, m, p);
    }
    forall p | p in m && !Before(last.price, p, descending)
      ensures Level(p, m[p]) in top
    {
    }
  }

  lemma LoadedOnce(top: seq<Level>, m: Side, p: string)
    requires forall x :: x in top ==> x.price in m && m[x.price] == x.size
    ensures p in Load(top) <==> p in m && Level(p, m[p]) in top
    ensures p in Load(top) ==> p in m && Load(top)[p] == m[p]
  {
    LoadLastWriter(top, p);
    if Touches(top, p) {
      var i := LastExists(top, p);
      assert top[i] in top;
    }
  }

  /** A venue lists its best levels by value; if its prices rank by value, that covers the side as well. */
  lemma BestByValueCover(m: Side, price: map<string, PriceOrder.Price>, listed: Side, descending: bool, worst: string)
    requires PriceOrder.NumericallyRanked(Ranking(m, descending), price, descending)
    requires PartOf(listed, m) && worst in listed
    requires forall p :: p in m && p !in listed ==> PriceOrder.ByValue(worst, p, price, descending)
    ensures Covers(listed, m, descending, worst)
  {
    PriceOrder.RankedIffRespects(m, price, descending);
    forall p | p in m && p !in listed
      ensures Before(worst, p, descending)
    {
      assert PriceOrder.Respects(p, worst, price, descending);
      BeforeTotal(worst, p, descending);
    }
  }
}
