/**
 One reconstructed order book: a snapshot overlaid with sequenced absolute diffs (`BookReconstructor`).
 */
module OrderBook {
  import opened Wrappers
  import opened Levels

  datatype Diff = Diff(bids: seq<Level>, asks: seq<Level>)

  /** A depth snapshot; the code decodes `lastUpdateId` and never looks at it. */
  datatype Snapshot = Snapshot(lastUpdateId: int, bids: seq<Level>, asks: seq<Level>)

  datatype Book = Book(bids: Side, asks: Side, lastSeq: int)

  /** What happens to a diff: applied, ignored as already seen, or taken as evidence of a loss. */
  datatype Verdict = Accepted | Stale | Gap

  /** Zero means "no diff since construction or the last gap": then the next number is not questioned. */
  function Judge(lastSeq: int, seqNo: int): Verdict
  {
    if lastSeq == 0 || seqNo == lastSeq + 1 then Accepted
    else if seqNo <= lastSeq then Stale
    else Gap
  }

  // ---- What a list of levels does to a side ----

  predicate Removes(size: string)
  {
    size == "0" || size == ""
  }

  function Put(side: Side, l: Level): Side
  {
    if Removes(l.size) then side - {l.price} else side[l.price := l.size]
  }

  function Overlay(side: Side, levels: seq<Level>): Side
  {
    if levels == [] then side
    else Put(Overlay(side, levels[..|levels| - 1]), levels[|levels| - 1])
  }

  /** A snapshot is loaded as it stands: a level of size "0" is kept. */
  function Load(levels: seq<Level>): Side
  {
    if levels == [] then map[]
    else var l := levels[|levels| - 1]; Load(levels[..|levels| - 1])[l.price := l.size]
  }

  function SizeAt(side: Side, p: string): Option<string>
  {
    if p in side then Some(side[p]) else None
  }

  predicate Touches(levels: seq<Level>, p: string)
  {
    exists i :: 0 <= i < |levels| && levels[i].price == p
  }

  predicate LastAt(levels: seq<Level>, i: int, p: string)
  {
    && 0 <= i < |levels| && levels[i].price == p
    && forall j :: i < j < |levels| ==> levels[j].price != p
  }

  lemma {:induction false} LastExists(levels: seq<Level>, p: string) returns (i: int)
    requires Touches(levels, p)
    ensures LastAt(levels, i, p)
  {
    i := |levels| - 1;
    if levels[i].price != p {
      var j :| 0 <= j < |levels| && levels[j].price == p;
      assert levels[..i][j].price == p;
      i := LastExists(levels[..i], p);
    }
  }

  /** The last entry for a price decides: it is the new size, or the price is gone. */
  lemma {:induction false} OverlayLastWriter(side: Side, levels: seq<Level>, p: string, i: int)
    requires LastAt(levels, i, p)
    ensures SizeAt(Overlay(side, levels), p)
            == if levels[i].size == "0" || levels[i].size == "" then None else Some(levels[i].size)
  {
    var n := |levels| - 1;
    if i < n {
      OverlayLastWriter(side, levels[..n], p, i);
    }
  }

  /** A price that is not mentioned keeps its size, or its absence. */
  lemma {:induction false} OverlayUntouched(side: Side, levels: seq<Level>, p: string)
    requires !Touches(levels, p)
    ensures SizeAt(Overlay(side, levels), p) == SizeAt(side, p)
  {
    if levels != [] {
      var n := |levels| - 1;
      assert levels[n].price != p;
      forall i | 0 <= i < n
        ensures levels[..n][i].price != p
      {
        assert levels[i].price != p;
      }
      OverlayUntouched(side, levels[..n], p);
    }
  }

  /** The size in the last entry of a price, if it has one. */
  function LastEntry(levels: seq<Level>, p: string): Option<string>
  {
    if levels == [] then None
    else
      var n := |levels| - 1;
      if levels[n].price == p then Some(levels[n].size) else LastEntry(levels[..n], p)
  }

  lemma {:induction false} LastEntryAt(levels: seq<Level>, p: string, i: int)
    requires LastAt(levels, i, p)
    ensures LastEntry(levels, p) == Some(levels[i].size)
  {
    var n := |levels| - 1;
    if i < n {
      LastEntryAt(levels[..n], p, i);
    }
  }

  lemma {:induction false} NoEntry(levels: seq<Level>, p: string)
    requires !Touches(levels, p)
    ensures LastEntry(levels, p) == None
  {
    if levels != [] {
      var n := |levels| - 1;
      assert levels[n].price != p;
      forall i | 0 <= i < n
        ensures levels[..n][i].price != p
      {
        assert levels[i].price != p;
      }
      NoEntry(levels[..n], p);
    }
  }

  /**
   `after` is `before` with the levels applied: price by price, the last entry decides. Size "0" or the empty
   size takes the price away, any other size is the new one; without an entry the price stays as it was.
   */
  ghost predicate Applied(before: Side, levels: seq<Level>, after: Side)
  {
    forall p :: SizeAt(after, p) == match LastEntry(levels, p)
                                    case None => SizeAt(before, p)
                                    case Some(size) => if size == "0" || size == "" then None else Some(size)
  }

  lemma OverlayApplies(side: Side, levels: seq<Level>)
    ensures Applied(side, levels, Overlay(side, levels))
  {
    forall p
      ensures SizeAt(Overlay(side, levels), p)
              == match LastEntry(levels, p)
                 case None => SizeAt(side, p)
                 case Some(size) => if size == "0" || size == "" then None else Some(size)
    {
      if Touches(levels, p) {
        var i := LastExists(levels, p);
        LastEntryAt(levels, p, i);
        OverlayLastWriter(side, levels, p, i);
      } else {
        NoEntry(levels, p);
        OverlayUntouched(side, levels, p);
      }
    }
  }

  lemma {:induction false} LoadLastWriter(levels: seq<Level>, p: string)
    ensures p in Load(levels) <==> Touches(levels, p)
    ensures forall i :: LastAt(levels, i, p) ==> p in Load(levels) && Load(levels)[p] == levels[i].size
  {
    if levels != [] {
      var n := |levels| - 1;
      LoadLastWriter(levels[..n], p);
      if levels[n].price != p {
        forall i | 0 <= i < n
          ensures levels[..n][i] == levels[i]
        {
        }
        assert Touches(levels, p) <==> Touches(levels[..n], p);
        forall i | LastAt(levels, i, p)
          ensures LastAt(levels[..n], i, p)
        {
        }
      }
    }
  }

  lemma SidesEqual(a: Side, b: Side)
    requires forall p :: SizeAt(a, p) == SizeAt(b, p)
    ensures a == b
  {
    forall p
      ensures p in a <==> p in b
      ensures p in a ==> a[p] == b[p]
    {
      assert SizeAt(a, p) == SizeAt(b, p);
    }
  }

  // ---- The transitions of one book ----

  function Accept(b: Book, seqNo: int, d: Diff): Book
  {
    Book(Overlay(b.bids, d.bids), Overlay(b.asks, d.asks), seqNo)
  }

  /** A snapshot replaces both sides and leaves the sequence number alone. */
  function Refresh(b: Book, s: Snapshot): Book
  {
    Book(Load(s.bids), Load(s.asks), b.lastSeq)
  }

  class BookReconstructor {
    var bids: Side
    var asks: Side
    var lastSeq: int

    function State(): Book
      reads this
    {
      Book(bids, asks, lastSeq)
    }

    constructor ()
      ensures State() == Book(map[], map[], 0)
    {
      bids, asks, lastSeq := map[], map[], 0;
    }

    method ApplySnapshot(s: Snapshot)
      modifies this
      ensures State() == Refresh(old(State()), s)
    {
      bids := map[];
      asks := map[];
      for i := 0 to |s.bids|
        invariant bids == Load(s.bids[..i]) && asks == map[] && lastSeq == old(lastSeq)
      {
        assert s.bids[..i + 1][..i] == s.bids[..i];
        bids := bids[s.bids[i].price := s.bids[i].size];
      }
      assert s.bids[..|s.bids|] == s.bids;
      for i := 0 to |s.asks|
        invariant asks == Load(s.asks[..i]) && bids == Load(s.bids) && lastSeq == old(lastSeq)
      {
        assert s.asks[..i + 1][..i] == s.asks[..i];
        asks := asks[s.asks[i].price := s.asks[i].size];
      }
      assert s.asks[..|s.asks|] == s.asks;
    }

    /** The first result says that the diff was applied, the second that numbers are missing before it. */
    method ApplyDiff(seqNo: int, d: Diff) returns (ok: bool, gap: bool)
      modifies this
      ensures ok <==> old(lastSeq) == 0 || seqNo == old(lastSeq) + 1
      ensures gap <==> old(lastSeq) != 0 && seqNo > old(lastSeq) + 1
      ensures State() == if ok then Accept(old(State()), seqNo, d) else old(State())
      ensures ok ==> Applied(old(bids), d.bids, bids) && Applied(old(asks), d.asks, asks) && lastSeq == seqNo
    {
      if lastSeq != 0 && seqNo <= lastSeq {
        return false, false;
      }
      if lastSeq != 0 && seqNo > lastSeq + 1 {
        return false, true;
      }
      for i := 0 to |d.bids|
        invariant bids == Overlay(old(bids), d.bids[..i]) && asks == old(asks) && lastSeq == old(lastSeq)
      {
        assert d.bids[..i + 1][..i] == d.bids[..i];
        if d.bids[i].size == "0" || d.bids[i].size == "" {
          bids := bids - {d.bids[i].price};
        } else {
          bids := bids[d.bids[i].price := d.bids[i].size];
        }
      }
      assert d.bids[..|d.bids|] == d.bids;
      for i := 0 to |d.asks|
        invariant asks == Overlay(old(asks), d.asks[..i]) && bids == Overlay(old(bids), d.bids)
        invariant lastSeq == old(lastSeq)
      {
        assert d.asks[..i + 1][..i] == d.asks[..i];
        if d.asks[i].size == "0" || d.asks[i].size == "" {
          asks := asks - {d.asks[i].price};
        } else {
          asks := asks[d.asks[i].price := d.asks[i].size];
        }
      }
      assert d.asks[..|d.asks|] == d.asks;
      OverlayApplies(old(bids), d.bids);
      OverlayApplies(old(asks), d.asks);
      lastSeq := seqNo;
      return true, false;
    }

    method MarkGap()
      modifies this
      ensures State() == old(State()).(lastSeq := 0)
    {
      lastSeq := 0;
    }

    /** The best `n` of each side: bids from the top down, asks from the bottom up. */
    method TopN(n: nat) returns (topBids: seq<Level>, topAsks: seq<Level>)
      ensures topBids == TopLevels(bids, true, n) && topAsks == TopLevels(asks, false, n)
    {
      topBids := CollectLevels(bids, true, n);
      topAsks := CollectLevels(asks, false, n);
    }
  }

  // ---- Removals that are not spelled "0" ----

  /** Every digit of the size is zero: "0", "0.00000000", "". */
  predicate SpellsZero(size: string)
  {
    forall i :: 0 <= i < |size| ==> size[i] == '0' || size[i] == '.'
  }

  /** What the venue means by a list of levels: any spelling of zero removes the price. */
  function Meant(side: Side, levels: seq<Level>): Side
  {
    if levels == [] then side
    else
      var l := levels[|levels| - 1];
      var before := Meant(side, levels[..|levels| - 1]);
      if SpellsZero(l.size) then before - {l.price} else before[l.price := l.size]
  }

  lemma {:induction false} MeantLastWriter(side: Side, levels: seq<Level>, p: string, i: int)
    requires LastAt(levels, i, p)
    ensures SizeAt(Meant(side, levels), p) == if SpellsZero(levels[i].size) then None else Some(levels[i].size)
  {
    var n := |levels| - 1;
    if i < n {
      MeantLastWriter(side, levels[..n], p, i);
    }
  }

  lemma {:induction false} MeantUntouched(side: Side, levels: seq<Level>, p: string)
    requires !Touches(levels, p)
    ensures SizeAt(Meant(side, levels), p) == SizeAt(side, p)
  {
    if levels != [] {
      var n := |levels| - 1;
      assert levels[n].price != p;
      forall i | 0 <= i < n
        ensures levels[..n][i].price != p
      {
        assert levels[i].price != p;
      }
      MeantUntouched(side, levels[..n], p);
    }
  }

  /**
   The side after a diff is the one the venue means exactly when no price ends on a zero spelled
   differently from "0" and "".
   */
  lemma RemovalExact(side: Side, levels: seq<Level>)
    ensures Overlay(side, levels) == Meant(side, levels)
            <==> forall i, p :: LastAt(levels, i, p) && SpellsZero(levels[i].size) ==>
                   levels[i].size == "0" || levels[i].size == ""
  {
    if forall i, p :: LastAt(levels, i, p) && SpellsZero(levels[i].size) ==>
         levels[i].size == "0" || levels[i].size == ""
    {
      forall p
        ensures SizeAt(Overlay(side, levels), p) == SizeAt(Meant(side, levels), p)
      {
        if Touches(levels, p) {
          var i := LastExists(levels, p);
          OverlayLastWriter(side, levels, p, i);
          MeantLastWriter(side, levels, p, i);
        } else {
          OverlayUntouched(side, levels, p);
          MeantUntouched(side, levels, p);
        }
      }
      SidesEqual(Overlay(side, levels), Meant(side, levels));
    } else {
      var i, p :| LastAt(levels, i, p) && SpellsZero(levels[i].size) && levels[i].size !in {"0", ""};
      OverlayLastWriter(side, levels, p, i);
      MeantLastWriter(side, levels, p, i);
    }
  }

  /** A removal written "0.00" leaves a level of size zero in the book. */
  lemma PaddedZeroStays(side: Side, p: string)
    ensures SizeAt(Overlay(side, [Level(p, "0.00")]), p) == Some("0.00")
    ensures SizeAt(Meant(side, [Level(p, "0.00")]), p) == None
  {
    OverlayLastWriter(side, [Level(p, "0.00")], p, 0);
    MeantLastWriter(side, [Level(p, "0.00")], p, 0);
  }
}
