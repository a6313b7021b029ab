/**
 Ranking the price levels of one side of a book: `sortLevels` and `collectLevels`.
 */
module Levels {
  import opened StringOrder

  datatype Level = Level(price: string, size: string)

  /** One side of a book: price to size, both kept as the strings the venue sent. */
  type Side = map<string, string>

  predicate InOrder(x: Level, y: Level, descending: bool)
  {
    !Before(y.price, x.price, descending)
  }

  predicate Sorted(s: seq<Level>, descending: bool)
  {
    forall p, q :: 0 <= p < q < |s| ==> InOrder(s[p], s[q], descending)
  }

  /** Insertion sort by adjacent swaps, from the left; equal prices are swapped too. */
  method SortLevels(s: array<Level>, descending: bool)
    modifies s
    ensures Sorted(s[..], descending)
    ensures multiset(s[..]) == multiset(old(s[..]))
  {
    var i := 1;
    while i < s.Length
      invariant 1 <= i
      invariant forall p, q :: 0 <= p < q < i && q < s.Length ==> InOrder(s[p], s[q], descending)
      invariant multiset(s[..]) == multiset(old(s[..]))
    {
      var j := i;
      while j > 0
        invariant 0 <= j <= i
        invariant forall p, q :: 0 <= p < q <= i && q != j ==> InOrder(s[p], s[q], descending)
        invariant multiset(s[..]) == multiset(old(s[..]))
      {
        if Before(s[j - 1].price, s[j].price, descending) {
          forall p | 0 <= p < j
            ensures InOrder(s[p], s[j], descending)
          {
            InOrderThenBefore(s[p], s[j - 1], s[j], descending);
          }
          break;
        }
        s[j - 1], s[j] := s[j], s[j - 1];
        j := j - 1;
      }
      i := i + 1;
    }
  }

  lemma InOrderThenBefore(x: Level, y: Level, z: Level, descending: bool)
    requires InOrder(x, y, descending) || x == y
    requires Before(y.price, z.price, descending)
    ensures InOrder(x, z, descending)
  {
    BeforeTotal(x.price, y.price, descending);
    BeforeTotal(x.price, z.price, descending);
    if Before(x.price, y.price, descending) {
      BeforeTransitive(x.price, y.price, z.price, descending);
    }
  }

  // ---- What a side looks like in rank order, independently of any sorting ----

  predicate StrictlySorted(s: seq<Level>, descending: bool)
  {
    forall p, q :: 0 <= p < q < |s| ==> Before(s[p].price, s[q].price, descending)
  }

  /** `s` lists every entry of `m` once, in strict price order. */
  ghost predicate IsRanking(s: seq<Level>, m: Side, descending: bool)
  {
    && StrictlySorted(s, descending)
    && forall x :: x in s <==> x.price in m && m[x.price] == x.size
  }

  ghost predicate IsFirst(k: string, keys: set<string>, descending: bool)
  {
    k in keys && forall k' :: k' in keys && k' != k ==> Before(k, k', descending)
  }

  lemma {:induction false} FirstExists(keys: set<string>, descending: bool)
    requires keys != {}
    ensures exists k :: IsFirst(k, keys, descending)
    decreases |keys|
  {
    var x :| x in keys;
    var rest := keys - {x};
    if rest == {} {
      assert keys == {x};
      assert IsFirst(x, keys, descending);
    } else {
      FirstExists(rest, descending);
      var k :| IsFirst(k, rest, descending);
      BeforeTotal(x, k, descending);
      if Before(k, x, descending) {
        assert IsFirst(k, keys, descending);
      } else {
        forall k' | k' in keys && k' != x
          ensures Before(x, k', descending)
        {
          if k' != k {
            BeforeTransitive(x, k, k', descending);
          }
        }
        assert IsFirst(x, keys, descending);
      }
    }
  }

  /** The one listing of `m` in price order. */
  ghost function Ranking(m: Side, descending: bool): (s: seq<Level>)
    ensures |s| == |m|
    ensures forall x :: x in s <==> x.price in m && m[x.price] == x.size
    decreases |m|
  {
    if m == map[] then
      []
    else
      FirstExists(m.Keys, descending);
      var k :| IsFirst(k, m.Keys, descending);
      [Level(k, m[k])] + Ranking(Drop(m, k), descending)
  }

  function Drop(m: Side, k: string): (r: Side)
    requires k in m
    ensures |r| == |m| - 1 && r.Keys == m.Keys - {k}
  {
    var r := m - {k};
    assert r.Keys == m.Keys - {k};
    assert |r.Keys| == |m.Keys| - 1;
    r
  }

  lemma {:induction false} RankingIsRanking(m: Side, descending: bool)
    ensures IsRanking(Ranking(m, descending), m, descending)
    decreases |m|
  {
    if m != map[] {
      var s := Ranking(m, descending);
      FirstExists(m.Keys, descending);
      var k := s[0].price;
      assert IsFirst(k, m.Keys, descending) && s[1..] == Ranking(Drop(m, k), descending);
      RankingIsRanking(Drop(m, k), descending);
      forall p, q | 0 <= p < q < |s|
        ensures Before(s[p].price, s[q].price, descending)
      {
        if p == 0 {
          assert s[q] in s[1..];
        } else {
          assert s[p] == s[1..][p - 1] && s[q] == s[1..][q - 1];
        }
      }
    }
  }

  /** A side has one ranking only, so any correct sort of its entries gives the same list. */
  lemma {:induction false} RankingUnique(s: seq<Level>, t: seq<Level>, m: Side, descending: bool)
    requires IsRanking(s, m, descending) && IsRanking(t, m, descending)
    ensures s == t
    decreases |s|
  {
    if s == [] {
      forall x | x in t
        ensures x in s
      {
      }
    } else {
      assert s[0] in t;
      assert t != [] && t[0] in s;
      HeadIsFirst(s, t, m, descending);
      var k := s[0].price;
      TailIsRanking(s, m, descending);
      TailIsRanking(t, m, descending);
      RankingUnique(s[1..], t[1..], Drop(m, k), descending);
      assert s == [s[0]] + s[1..] && t == [t[0]] + t[1..];
    }
  }

  lemma HeadIsFirst(s: seq<Level>, t: seq<Level>, m: Side, descending: bool)
    requires IsRanking(s, m, descending) && IsRanking(t, m, descending)
    requires s != [] && t != [] && s[0] in t && t[0] in s
    ensures s[0] == t[0]
  {
    var i :| 0 <= i < |s| && s[i] == t[0];
    var j :| 0 <= j < |t| && t[j] == s[0];
    BeforeTotal(s[0].price, t[0].price, descending);
  }

  lemma TailIsRanking(s: seq<Level>, m: Side, descending: bool)
    requires IsRanking(s, m, descending) && s != []
    ensures s[0].price in m && IsRanking(s[1..], Drop(m, s[0].price), descending)
  {
    assert s[0] in s;
    var m' := Drop(m, s[0].price);
    forall x
      ensures x in s[1..] <==> x.price in m' && m'[x.price] == x.size
    {
      if x in s[1..] {
        var i :| 0 <= i < |s[1..]| && s[1..][i] == x;
        assert x == s[i + 1] && x in s;
        BeforeTotal(s[0].price, x.price, descending);
      }
    }
  }

  /** A relation holds along the whole ranking exactly when it holds of every pair of prices in order. */
  lemma RankingPairs(m: Side, descending: bool, r: (string, string) -> bool)
    ensures var s := Ranking(m, descending);
            (forall p, q :: 0 <= p < q < |s| ==> r(s[p].price, s[q].price))
            <==> (forall k, l :: k in m && l in m && Before(k, l, descending) ==> r(k, l))
  {
    var s := Ranking(m, descending);
    RankingIsRanking(m, descending);
    if forall p, q :: 0 <= p < q < |s| ==> r(s[p].price, s[q].price) {
      forall k, l | k in m && l in m && Before(k, l, descending)
        ensures r(k, l)
      {
        var p, q := Positions(m, descending, k, l);
        assert r(s[p].price, s[q].price);
      }
    } else {
      var p, q :| 0 <= p < q < |s| && !r(s[p].price, s[q].price);
      assert s[p] in s && s[q] in s;
      assert Before(s[p].price, s[q].price, descending);
    }
  }

  lemma Positions(m: Side, descending: bool, k: string, l: string) returns (p: int, q: int)
    requires k in m && l in m && Before(k, l, descending)
    ensures var s := Ranking(m, descending);
            0 <= p < q < |s| && s[p] == Level(k, m[k]) && s[q] == Level(l, m[l])
  {
    var s := Ranking(m, descending);
    RankingIsRanking(m, descending);
    assert Level(k, m[k]) in s && Level(l, m[l]) in s;
    p :| 0 <= p < |s| && s[p] == Level(k, m[k]);
    q :| 0 <= q < |s| && s[q] == Level(l, m[l]);
    BeforeTotal(k, l, descending);
  }

  // ---- Sorting the entries of a map gives its ranking ----

  predicate NoRepeats(s: seq<Level>)
  {
    forall p, q :: 0 <= p < q < |s| ==> s[p] != s[q]
  }

  lemma {:induction false} NoRepeatsIffCounts(s: seq<Level>)
    ensures NoRepeats(s) <==> forall x :: multiset(s)[x] <= 1
  {
    if s != [] {
      var rest := s[1..];
      NoRepeatsIffCounts(rest);
      assert s == [s[0]] + rest;
      assert multiset(s) == multiset{s[0]} + multiset(rest);
      if NoRepeats(s) {
        assert NoRepeats(rest);
        assert s[0] !in rest;
      } else if s[0] in rest {
        assert multiset(s)[s[0]] > 1;
      } else {
        assert !NoRepeats(rest) by {
          var p, q :| 0 <= p < q < |s| && s[p] == s[q];
          assert rest[p - 1] == rest[q - 1];
        }
        var x :| multiset(rest)[x] > 1;
        assert multiset(s)[x] > 1;
      }
    }
  }

  /** `entries` holds the entries of `m`, once each, except those whose key is still to come. */
  ghost predicate Lists(entries: seq<Level>, m: Side, toCome: set<string>)
  {
    && toCome <= m.Keys
    && NoRepeats(entries)
    && forall x :: x in entries <==> x.price in m && x.price !in toCome && m[x.price] == x.size
  }

  lemma ListsOneMore(entries: seq<Level>, m: Side, toCome: set<string>, k: string)
    requires Lists(entries, m, toCome) && k in toCome
    ensures Lists(entries + [Level(k, m[k])], m, toCome - {k})
  {
    var more := entries + [Level(k, m[k])];
    forall p, q | 0 <= p < q < |more|
      ensures more[p] != more[q]
    {
      assert more[p] in entries;
    }
  }

  lemma SortedEntriesAreRanking(entries: seq<Level>, s: seq<Level>, m: Side, descending: bool)
    requires Lists(entries, m, {}) && Sorted(s, descending) && multiset(s) == multiset(entries)
    ensures s == Ranking(m, descending)
  {
    NoRepeatsIffCounts(entries);
    NoRepeatsIffCounts(s);
    forall x
      ensures x in s <==> x in entries
    {
      assert x in s <==> x in multiset(s);
      assert x in entries <==> x in multiset(entries);
    }
    forall p, q | 0 <= p < q < |s|
      ensures Before(s[p].price, s[q].price, descending)
    {
      assert s[p] in s && s[q] in s && InOrder(s[p], s[q], descending);
      BeforeTotal(s[p].price, s[q].price, descending);
    }
    RankingIsRanking(m, descending);
    RankingUnique(s, Ranking(m, descending), m, descending);
  }

  /** The first `n` levels of a side, best first. */
  ghost function TopLevels(m: Side, descending: bool, n: nat): seq<Level>
  {
    var r := Ranking(m, descending);
    if |r| > n then r[..n] else r
  }

  /** The entries of a map, met in an arbitrary order: each `:|` may pick any key left. */
  method Entries(m: Side) returns (buf: array<Level>)
    ensures fresh(buf) && Lists(buf[..], m, {})
  {
    buf := new Level[|m|];
    var keys := m.Keys;
    var i := 0;
    while keys != {}
      invariant i + |keys| == |m|
      invariant Lists(buf[..i], m, keys)
      decreases |keys|
    {
      var k :| k in keys;
      ghost var done := buf[..i];
      buf[i] := Level(k, m[k]);
      assert buf[..i + 1] == done + [Level(k, m[k])];
      ListsOneMore(done, m, keys, k);
      keys := keys - {k};
      i := i + 1;
    }
    assert buf[..i] == buf[..];
  }

  /** The result does not depend on the order in which the entries are met. */
  method CollectLevels(m: Side, descending: bool, n: nat) returns (out: seq<Level>)
    ensures out == TopLevels(m, descending, n)
  {
    var buf := Entries(m);
    ghost var entries := buf[..];
    SortLevels(buf, descending);
    out := buf[..];
    SortedEntriesAreRanking(entries, out, m, descending);
    if |out| > n {
      out := out[..n];
    }
  }

  /** Truncation keeps the best: every level left out comes after every level returned. */
  lemma TopLevelsAreBest(m: Side, descending: bool, n: nat)
    ensures var top := TopLevels(m, descending, n);
            && |top| == (if |m| > n then n else |m|)
            && StrictlySorted(top, descending)
            && (forall x :: x in top ==> x.price in m && m[x.price] == x.size)
            && (forall x, k :: x in top && k in m && Level(k, m[k]) !in top ==> Before(x.price, k, descending))
  {
    var r := Ranking(m, descending);
    RankingIsRanking(m, descending);
    var top := TopLevels(m, descending, n);
    forall x, k | x in top && k in m && Level(k, m[k]) !in top
      ensures Before(x.price, k, descending)
    {
      assert Level(k, m[k]) in r;
      var p :| 0 <= p < |top| && top[p] == x;
      var q :| 0 <= q < |r| && r[q] == Level(k, m[k]);
      assert r[p] == x;
    }
  }

  lemma TopLevelsEmpty(m: Side, descending: bool, n: nat)
    requires n > 0
    ensures TopLevels(m, descending, n) == [] <==> m == map[]
  {
    assert |Ranking(m, descending)| == |m|;
  }
}
