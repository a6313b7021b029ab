/**
 Whole runs of one subscription: what the handler of `SubscribeBook` does to a pair's book, message after
 message, with the answer of the snapshot request as an input.
 */
module BookRuns {
  import opened Wrappers
  import opened Levels
  import opened OrderBook
  import opened Convergence

  /** A depth message, and the answer a snapshot request gets if this message makes one. */
  datatype Delivery = Delivery(seqNo: int, diff: Diff, reply: Option<Snapshot>)

  function Step(b: Book, e: Delivery): Book
  {
    match Judge(b.lastSeq, e.seqNo)
    case Accepted => Accept(b, e.seqNo, e.diff)
    case Stale => b
    case Gap =>
      var marked := b.(lastSeq := 0);
      if e.reply.Some? then Refresh(marked, e.reply.value) else marked
  }

  function Run(b: Book, es: seq<Delivery>): Book
  {
    if es == [] then b else Step(Run(b, es[..|es| - 1]), es[|es| - 1])
  }

  /**
   Which messages do what. A number at most the stored one is a repetition and changes nothing. One that
   leaves numbers out forgets the number, and the sides become those of the snapshot that arrives, if one
   does. Any other is applied to both sides; so is any at all while no number is stored.
   */
  lemma StepExact(b: Book, e: Delivery)
    ensures b.lastSeq != 0 && e.seqNo <= b.lastSeq ==> Step(b, e) == b
    ensures b.lastSeq != 0 && e.seqNo > b.lastSeq + 1 ==>
              && Step(b, e).lastSeq == 0
              && (e.reply.None? ==> Step(b, e).bids == b.bids && Step(b, e).asks == b.asks)
              && (e.reply.Some? ==>
                    Step(b, e).bids == Load(e.reply.value.bids) && Step(b, e).asks == Load(e.reply.value.asks))
    ensures b.lastSeq == 0 || e.seqNo == b.lastSeq + 1 ==>
              && Step(b, e).lastSeq == e.seqNo
              && Applied(b.bids, e.diff.bids, Step(b, e).bids) && Applied(b.asks, e.diff.asks, Step(b, e).asks)
  {
    OverlayApplies(b.bids, e.diff.bids);
    OverlayApplies(b.asks, e.diff.asks);
  }

  // ---- The book is its last snapshot overlaid with the diffs accepted since ----

  function VerdictAt(b: Book, es: seq<Delivery>, i: nat): Verdict
    requires i < |es|
  {
    Judge(Run(b, es[..i]).lastSeq, es[i].seqNo)
  }

  predicate RefreshedAt(b: Book, es: seq<Delivery>, i: nat)
    requires i < |es|
  {
    VerdictAt(b, es, i) == Gap && es[i].reply.Some?
  }

  /** The deliveries accepted from position `from` on. */
  function AcceptedFrom(b: Book, es: seq<Delivery>, from: nat): seq<Delivery>
  {
    if |es| <= from then []
    else
      var n := |es| - 1;
      AcceptedFrom(b, es[..n], from) + if VerdictAt(b, es, n) == Accepted then [es[n]] else []
  }

  function Bids(es: seq<Delivery>): (ds: Diffs)
    ensures |ds| == |es| && forall i :: 0 <= i < |es| ==> ds[i] == es[i].diff.bids
  {
    seq(|es|, i requires 0 <= i < |es| => es[i].diff.bids)
  }

  function Asks(es: seq<Delivery>): (ds: Diffs)
    ensures |ds| == |es| && forall i :: 0 <= i < |es| ==> ds[i] == es[i].diff.asks
  {
    seq(|es|, i requires 0 <= i < |es| => es[i].diff.asks)
  }

  lemma VerdictOfPrefix(b: Book, es: seq<Delivery>, n: nat, i: nat)
    requires i < n <= |es|
    ensures VerdictAt(b, es[..n], i) == VerdictAt(b, es, i)
  {
    assert es[..n][..i] == es[..i];
  }

  lemma UnlessRefreshed(b: Book, es: seq<Delivery>)
    requires es != [] && !RefreshedAt(b, es, |es| - 1)
    ensures var n := |es| - 1; var before := Run(b, es[..n]);
            if VerdictAt(b, es, n) == Accepted then Run(b, es) == Accept(before, es[n].seqNo, es[n].diff)
            else Run(b, es).bids == before.bids && Run(b, es).asks == before.asks
  {
  }

  lemma ReplayAccepted(side: Side, acc: seq<Delivery>, e: Delivery)
    ensures Replay(side, Bids(acc + [e])) == Overlay(Replay(side, Bids(acc)), e.diff.bids)
    ensures Replay(side, Asks(acc + [e])) == Overlay(Replay(side, Asks(acc)), e.diff.asks)
  {
    assert Bids(acc + [e])[..|acc|] == Bids(acc);
    assert Asks(acc + [e])[..|acc|] == Asks(acc);
  }

  /**
   If no refresh succeeded since position `from`, the book is the book of that position overlaid, last
   writer per price, with exactly the diffs accepted since: stale and gap diffs leave no trace.
   */
  lemma {:induction false} BookIsOverlay(b: Book, es: seq<Delivery>, from: nat)
    requires from <= |es| && forall i :: from <= i < |es| ==> !RefreshedAt(b, es, i)
    ensures Run(b, es).bids == Replay(Run(b, es[..from]).bids, Bids(AcceptedFrom(b, es, from)))
    ensures Run(b, es).asks == Replay(Run(b, es[..from]).asks, Asks(AcceptedFrom(b, es, from)))
  {
    if |es| == from {
      assert es[..from] == es;
    } else {
      var n := |es| - 1;
      forall i | from <= i < n
        ensures !RefreshedAt(b, es[..n], i)
      {
        VerdictOfPrefix(b, es, n, i);
        assert !RefreshedAt(b, es, i);
      }
      BookIsOverlay(b, es[..n], from);
      assert es[..n][..from] == es[..from];
      var acc := AcceptedFrom(b, es[..n], from);
      ReplayAccepted(Run(b, es[..from]).bids, acc, es[n]);
      ReplayAccepted(Run(b, es[..from]).asks, acc, es[n]);
      UnlessRefreshed(b, es);
      assert AcceptedFrom(b, es, from) == if VerdictAt(b, es, n) == Accepted then acc + [es[n]] else acc;
    }
  }

  /** So a price that was sent since is gone exactly when the size it was last sent with is "0" or "". */
  lemma EndsAsSent(b: Book, es: seq<Delivery>, from: nat, p: string)
    requires from <= |es| && forall i :: from <= i < |es| ==> !RefreshedAt(b, es, i)
    ensures var sent := Ending(Bids(AcceptedFrom(b, es, from)), p);
            SizeAt(Run(b, es).bids, p)
            == if sent.None? then SizeAt(Run(b, es[..from]).bids, p) else if sent.value in {"0", ""} then None else sent
    ensures var sent := Ending(Asks(AcceptedFrom(b, es, from)), p);
            SizeAt(Run(b, es).asks, p)
            == if sent.None? then SizeAt(Run(b, es[..from]).asks, p) else if sent.value in {"0", ""} then None else sent
  {
    BookIsOverlay(b, es, from);
    ReplayEnding(Run(b, es[..from]).bids, Bids(AcceptedFrom(b, es, from)), p);
    ReplayEnding(Run(b, es[..from]).asks, Asks(AcceptedFrom(b, es, from)), p);
  }

  /** The same from the last successful refresh: the base is the snapshot itself. */
  lemma {:induction false} BookSinceSnapshot(b: Book, es: seq<Delivery>, k: nat)
    requires k < |es| && RefreshedAt(b, es, k)
    requires forall i :: k < i < |es| ==> !RefreshedAt(b, es, i)
    ensures Run(b, es).bids == Replay(Load(es[k].reply.value.bids), Bids(AcceptedFrom(b, es, k + 1)))
    ensures Run(b, es).asks == Replay(Load(es[k].reply.value.asks), Asks(AcceptedFrom(b, es, k + 1)))
  {
    BookIsOverlay(b, es, k + 1);
    assert es[..k + 1][..k] == es[..k];
    assert Run(b, es[..k + 1]) == Step(Run(b, es[..k]), es[k]);
  }

  // ---- Between two gaps the accepted numbers are consecutive ----

  /**
   `from` is the start or follows a gap, and no gap came after. The number 0 also means "none yet", so only
   after an accepted 0 may the next number be any other.
   */
  lemma {:induction false} AcceptedAreConsecutive(b: Book, es: seq<Delivery>, from: nat)
    requires b.lastSeq == 0 && from <= |es|
    requires from == 0 || VerdictAt(b, es, from - 1) == Gap
    requires NoGapFrom(b, es, from)
    ensures Consecutive(AcceptedFrom(b, es, from), Run(b, es).lastSeq)
  {
    var n := |es| - 1;
    if |es| == from {
      if from > 0 {
        assert Run(b, es) == Step(Run(b, es[..n]), es[n]);
      }
    } else {
      NoGapInPrefix(b, es, from);
      AcceptedAreConsecutive(b, es[..n], from);
      assert VerdictAt(b, es, n) != Gap;
      ConsecutiveStep(AcceptedFrom(b, es[..n], from), Run(b, es[..n]), es[n]);
    }
  }

  ghost predicate NoGapFrom(b: Book, es: seq<Delivery>, from: nat)
  {
    forall i :: from <= i < |es| ==> VerdictAt(b, es, i) != Gap
  }

  lemma NoGapInPrefix(b: Book, es: seq<Delivery>, from: nat)
    requires from < |es| && NoGapFrom(b, es, from)
    ensures NoGapFrom(b, es[..|es| - 1], from)
    ensures from > 0 ==> VerdictAt(b, es[..|es| - 1], from - 1) == VerdictAt(b, es, from - 1)
  {
    var n := |es| - 1;
    if from > 0 {
      VerdictOfPrefix(b, es, n, from - 1);
    }
    forall i | from <= i < n
      ensures VerdictAt(b, es[..n], i) != Gap
    {
      VerdictOfPrefix(b, es, n, i);
      assert VerdictAt(b, es, i) != Gap;
    }
  }

  /** Each number follows the one before, unless that was 0; the last one is `last` (0 if there are none). */
  predicate Consecutive(acc: seq<Delivery>, last: int)
  {
    && (forall i :: 0 < i < |acc| && acc[i - 1].seqNo != 0 ==> acc[i].seqNo == acc[i - 1].seqNo + 1)
    && last == if acc == [] then 0 else acc[|acc| - 1].seqNo
  }

  lemma ConsecutiveStep(acc: seq<Delivery>, b: Book, e: Delivery)
    requires Consecutive(acc, b.lastSeq) && Judge(b.lastSeq, e.seqNo) != Gap
    ensures Consecutive(acc + if Judge(b.lastSeq, e.seqNo) == Accepted then [e] else [], Step(b, e).lastSeq)
  {
    assert acc + [] == acc;
  }

  // ---- Convergence to the venue's own book ----

  datatype Venue = Venue(bids: Side, asks: Side, diffs: seq<Diff>)
  {
    function BidDiffs(): (ds: Diffs)
      ensures |ds| == |diffs| && forall i :: 0 <= i < |ds| ==> ds[i] == diffs[i].bids
    {
      seq(|diffs|, i requires 0 <= i < |diffs| => diffs[i].bids)
    }

    function AskDiffs(): (ds: Diffs)
      ensures |ds| == |diffs| && forall i :: 0 <= i < |ds| ==> ds[i] == diffs[i].asks
    {
      seq(|diffs|, i requires 0 <= i < |diffs| => diffs[i].asks)
    }

    function BidsAt(k: nat): Side
      requires k <= |diffs|
    {
      VenueAt(bids, BidDiffs(), k)
    }

    function AsksAt(k: nat): Side
      requires k <= |diffs|
    {
      VenueAt(asks, AskDiffs(), k)
    }

    /** The book a reconstructor can know after the diffs `f..l` over a snapshot. */
    function KnownBook(s: Snapshot, f: int, l: int): Book
      requires 1 <= f <= l + 1 <= |diffs| + 1
    {
      Book(Known(BidsAt(l), Load(s.bids), BidDiffs()[f - 1..l]),
           Known(AsksAt(l), Load(s.asks), AskDiffs()[f - 1..l]), l)
    }

    /** The diffs `f..l` spell the removals that last as "0" or "". */
    ghost predicate PlainRun(f: int, l: int)
      requires 1 <= f <= l + 1 <= |diffs| + 1
    {
      Plain(BidDiffs()[f - 1..l]) && Plain(AskDiffs()[f - 1..l])
    }
  }

  /** The snapshot lists some of the levels, or all, that the venue's book has at the snapshot's update id. */
  predicate Honest(v: Venue, s: Snapshot)
  {
    && 0 <= s.lastUpdateId <= |v.diffs|
    && PartOf(Load(s.bids), v.BidsAt(s.lastUpdateId)) && PartOf(Load(s.asks), v.AsksAt(s.lastUpdateId))
  }

  /**
   The message is the venue's diff of that number, and a snapshot requested on its account is not older
   than the message. Messages may be lost, repeated or delayed at will.
   */
  predicate FromVenue(v: Venue, e: Delivery)
  {
    && 1 <= e.seqNo <= |v.diffs|
    && e.diff == v.diffs[e.seqNo - 1]
    && (e.reply.Some? ==> Honest(v, e.reply.value) && e.seqNo <= e.reply.value.lastUpdateId)
  }

  /**
   What an observer who does read update ids knows of the book: nothing, that it is a snapshot, or that it
   is a snapshot with the diffs from `first` on replayed over it.
   */
  datatype Anchor = Lost | Fresh(snapshot: Snapshot) | Replaying(snapshot: Snapshot, first: int)

  function Observe(a: Anchor, b: Book, e: Delivery): Anchor
  {
    match Judge(b.lastSeq, e.seqNo)
    case Accepted => if a.Fresh? then Replaying(a.snapshot, e.seqNo) else a
    case Stale => a
    case Gap => if e.reply.Some? then Fresh(e.reply.value) else Lost
  }

  function ObserveRun(a: Anchor, b: Book, es: seq<Delivery>): Anchor
  {
    if es == [] then a
    else var n := |es| - 1; Observe(ObserveRun(a, b, es[..n]), Run(b, es[..n]), es[n])
  }

  ghost predicate Anchored(v: Venue, a: Anchor, b: Book)
  {
    match a
    case Lost => true
    case Fresh(s) => Honest(v, s) && b == Book(Load(s.bids), Load(s.asks), 0)
    case Replaying(s, f) =>
      && Honest(v, s)
      && Replayed(Load(s.bids), v.BidDiffs(), f, b.lastSeq, b.bids)
      && Replayed(Load(s.asks), v.AskDiffs(), f, b.lastSeq, b.asks)
  }

  /** `side` is `snap` with the diffs `f..l` replayed over it. */
  predicate Replayed(snap: Side, ds: Diffs, f: int, l: int, side: Side)
  {
    1 <= f <= l <= |ds| && side == Replay(snap, ds[f - 1..l])
  }

  lemma ObserveStep(v: Venue, a: Anchor, b: Book, e: Delivery)
    requires Anchored(v, a, b) && FromVenue(v, e)
    ensures Anchored(v, Observe(a, b, e), Step(b, e))
  {
    if Judge(b.lastSeq, e.seqNo) == Accepted {
      match a
      case Lost =>
      case Fresh(s) => JoinSnapshot(v, s, b, e);
      case Replaying(s, f) => ExtendReplay(v, s, f, b, e);
    }
  }

  lemma JoinSnapshot(v: Venue, s: Snapshot, b: Book, e: Delivery)
    requires Anchored(v, Fresh(s), b) && FromVenue(v, e)
    ensures Anchored(v, Replaying(s, e.seqNo), Accept(b, e.seqNo, e.diff))
  {
    ReplayFirst(Load(s.bids), v.BidDiffs(), e.seqNo, e.diff.bids);
    ReplayFirst(Load(s.asks), v.AskDiffs(), e.seqNo, e.diff.asks);
  }

  lemma ExtendReplay(v: Venue, s: Snapshot, f: int, b: Book, e: Delivery)
    requires Anchored(v, Replaying(s, f), b) && FromVenue(v, e) && e.seqNo == b.lastSeq + 1
    ensures Anchored(v, Replaying(s, f), Accept(b, e.seqNo, e.diff))
  {
    ReplayOneMore(Load(s.bids), v.BidDiffs(), f, b.lastSeq, b.bids, e.diff.bids);
    ReplayOneMore(Load(s.asks), v.AskDiffs(), f, b.lastSeq, b.asks, e.diff.asks);
  }

  lemma ReplayFirst(snap: Side, ds: Diffs, k: int, levels: seq<Level>)
    requires 1 <= k <= |ds| && levels == ds[k - 1]
    ensures Replayed(snap, ds, k, k, Overlay(snap, levels))
  {
    assert ds[k - 1..k] == [levels] && ds[k - 1..k][..0] == [];
  }

  lemma ReplayOneMore(snap: Side, ds: Diffs, f: int, l: int, side: Side, levels: seq<Level>)
    requires Replayed(snap, ds, f, l, side) && l < |ds| && levels == ds[l]
    ensures Replayed(snap, ds, f, l + 1, Overlay(side, levels))
  {
    var run := ds[f - 1..l + 1];
    assert run[..|run| - 1] == ds[f - 1..l] && run[|run| - 1] == ds[l];
  }

  lemma {:induction false} ObservedBook(v: Venue, a: Anchor, b: Book, es: seq<Delivery>)
    requires Anchored(v, a, b) && forall e :: e in es ==> FromVenue(v, e)
    ensures Anchored(v, ObserveRun(a, b, es), Run(b, es))
  {
    if es != [] {
      var n := |es| - 1;
      ObservedBook(v, a, b, es[..n]);
      ObserveStep(v, ObserveRun(a, b, es[..n]), Run(b, es[..n]), es[n]);
    }
  }

  /** The first diff joins on to the snapshot, and the replay has passed it. */
  predicate CaughtUp(a: Anchor, b: Book)
  {
    a.Replaying? && a.first <= a.snapshot.lastUpdateId + 1 <= b.lastSeq + 1
  }

  /**
   Over every run, with messages lost, repeated and refused as they come: once the first diff after the
   last successful refresh joins on to its snapshot and the replay has passed it, the book is the venue's
   on all that the snapshot listed or a diff touched, exactly when the removals that last are spelled plainly.
   */
  lemma CaughtUpIsVenue(v: Venue, a: Anchor, b: Book, es: seq<Delivery>)
    requires Anchored(v, a, b) && forall e :: e in es ==> FromVenue(v, e)
    ensures var a', b' := ObserveRun(a, b, es), Run(b, es);
            CaughtUp(a', b') ==>
              && 1 <= a'.first <= b'.lastSeq <= |v.diffs|
              && (b' == v.KnownBook(a'.snapshot, a'.first, b'.lastSeq) <==> v.PlainRun(a'.first, b'.lastSeq))
  {
    ObservedBook(v, a, b, es);
    var a', b' := ObserveRun(a, b, es), Run(b, es);
    if CaughtUp(a', b') {
      AnchoredIsKnown(v, a', b');
    }
  }

  lemma AnchoredIsKnown(v: Venue, a: Anchor, b: Book)
    requires Anchored(v, a, b) && CaughtUp(a, b)
    ensures b == v.KnownBook(a.snapshot, a.first, b.lastSeq) <==> v.PlainRun(a.first, b.lastSeq)
  {
    var s := a.snapshot;
    SpellingExact(v.bids, v.BidDiffs(), Load(s.bids), s.lastUpdateId, a.first, b.lastSeq);
    SpellingExact(v.asks, v.AskDiffs(), Load(s.asks), s.lastUpdateId, a.first, b.lastSeq);
  }

  /** The messages `g..l` in order, the first of them answered by a snapshot. */
  predicate InOrderFrom(v: Venue, g: nat, es: seq<Delivery>)
  {
    && es != [] && es[0].reply.Some?
    && forall i :: 0 <= i < |es| ==> FromVenue(v, es[i]) && es[i].seqNo == g + i
  }

  lemma {:induction false} GapThenInOrder(v: Venue, b: Book, g: nat, es: seq<Delivery>)
    requires InOrderFrom(v, g, es) && b.lastSeq != 0 && g > b.lastSeq + 1
    ensures var s := es[0].reply.value;
            && ObserveRun(Lost, b, es) == (if |es| == 1 then Fresh(s) else Replaying(s, g + 1))
            && Run(b, es).lastSeq == (if |es| == 1 then 0 else g + |es| - 1)
  {
    var n := |es| - 1;
    assert FromVenue(v, es[0]);
    if n == 0 {
      assert es[..0] == [];
    } else {
      forall i | 0 <= i < n
        ensures es[..n][i] == es[i]
      {
      }
      GapThenInOrder(v, b, g, es[..n]);
      assert es[n].seqNo == g + n;
    }
  }

  lemma InOrderIsFromVenue(v: Venue, g: nat, es: seq<Delivery>)
    requires InOrderFrom(v, g, es)
    ensures forall e :: e in es ==> FromVenue(v, e)
    ensures 1 <= g && g + |es| - 1 <= |v.diffs|
  {
    assert FromVenue(v, es[0]) && FromVenue(v, es[|es| - 1]);
  }

  /**
   Recovery from a gap. Whatever the book was, if message `g` reveals a gap, the request it causes brings
   levels of the venue's book of some moment `s >= g`, and the following messages arrive in order up to some
   `l >= s`, then the book is the venue's at `l` on every price listed or touched, and holds nothing else,
   exactly when those messages spell removals plainly; although message `g` was dropped and no id compared.
   */
  lemma {:induction false} GapRecovery(v: Venue, b: Book, g: nat, es: seq<Delivery>)
    requires InOrderFrom(v, g, es) && b.lastSeq != 0 && g > b.lastSeq + 1
    ensures var l := g + |es| - 1;
            l >= es[0].reply.value.lastUpdateId ==>
              && 1 <= g <= l <= |v.diffs|
              && (Run(b, es) == v.KnownBook(es[0].reply.value, g + 1, l).(lastSeq := if |es| == 1 then 0 else l)
                  <==> v.PlainRun(g + 1, l))
  {
    InOrderIsFromVenue(v, g, es);
    var l, s := g + |es| - 1, es[0].reply.value;
    if l >= s.lastUpdateId {
      if |es| == 1 {
        RecoveryLoads(v, b, g, es);
        JustRefreshed(v, s, g);
      } else {
        RecoveryReplays(v, b, g, es);
        ReplayIsKnown(v, s, g + 1, l, Run(b, es));
      }
    }
  }

  lemma RecoveryLoads(v: Venue, b: Book, g: nat, es: seq<Delivery>)
    requires InOrderFrom(v, g, es) && b.lastSeq != 0 && g > b.lastSeq + 1 && |es| == 1
    ensures var s := es[0].reply.value;
            Run(b, es) == Book(Load(s.bids), Load(s.asks), 0) && Honest(v, s) && g <= s.lastUpdateId
  {
    assert FromVenue(v, es[0]) && es[..0] == [];
  }

  lemma RecoveryReplays(v: Venue, b: Book, g: nat, es: seq<Delivery>)
    requires InOrderFrom(v, g, es) && b.lastSeq != 0 && g > b.lastSeq + 1 && |es| > 1
    ensures var s := es[0].reply.value;
            && Anchored(v, Replaying(s, g + 1), Run(b, es)) && Run(b, es).lastSeq == g + |es| - 1
            && g <= s.lastUpdateId
  {
    InOrderIsFromVenue(v, g, es);
    GapThenInOrder(v, b, g, es);
    ObservedBook(v, Lost, b, es);
    assert FromVenue(v, es[0]);
  }

  lemma ReplayIsKnown(v: Venue, s: Snapshot, f: int, l: int, after: Book)
    requires Anchored(v, Replaying(s, f), after) && after.lastSeq == l && f <= s.lastUpdateId + 1 <= l + 1
    ensures 1 <= f <= l <= |v.diffs|
    ensures after == v.KnownBook(s, f, l) <==> v.PlainRun(f, l)
  {
    AnchoredIsKnown(v, Replaying(s, f), after);
  }

  /** The same for one recovery that has passed its snapshot and was spelled plainly. */
  lemma GapRecovered(v: Venue, b: Book, g: nat, es: seq<Delivery>, snap: Snapshot, l: nat)
    requires InOrderFrom(v, g, es) && b.lastSeq != 0 && g > b.lastSeq + 1 && |es| > 1
    requires es[0].reply.value == snap && l == g + |es| - 1 && snap.lastUpdateId <= l
    ensures 1 <= g < l <= |v.diffs| && (v.PlainRun(g + 1, l) ==> Run(b, es) == v.KnownBook(snap, g + 1, l))
  {
    RecoveryReplays(v, b, g, es);
    ReplayIsKnown(v, snap, g + 1, l, Run(b, es));
  }

  /** With no diff since, the snapshot itself is what is known. */
  lemma JustRefreshed(v: Venue, s: Snapshot, g: nat)
    requires Honest(v, s) && s.lastUpdateId == g && g <= |v.diffs|
    ensures v.KnownBook(s, g + 1, g) == Book(Load(s.bids), Load(s.asks), g) && v.PlainRun(g + 1, g)
  {
    assert v.BidDiffs()[g..g] == [] && v.AskDiffs()[g..g] == [];
  }

  // ---- A refresh that fails ----

  /** Message `g` brings no snapshot; then come the messages `f..l`, in order. */
  predicate Unrefreshed(v: Venue, g: nat, f: nat, l: nat, es: seq<Delivery>)
  {
    && 1 <= f <= l + 1 && |es| == l - f + 2 && es[0].seqNo == g && es[0].reply.None?
    && (forall i :: 0 <= i < |es| ==> FromVenue(v, es[i]))
    && forall i :: 0 < i < |es| ==> es[i].seqNo == f + i - 1
  }

  lemma UnrefreshedPrefix(v: Venue, g: nat, f: nat, l: nat, es: seq<Delivery>)
    requires f <= l && Unrefreshed(v, g, f, l, es)
    ensures Unrefreshed(v, g, f, l - 1, es[..|es| - 1])
    ensures l <= |v.diffs| && es[|es| - 1].seqNo == l && es[|es| - 1].diff == v.diffs[l - 1]
  {
    assert FromVenue(v, es[|es| - 1]);
  }

  /** The number was forgotten, so the old book simply goes on with the next message that arrives. */
  lemma {:induction false} OldBookGoesOn(v: Venue, b: Book, g: nat, f: nat, l: nat, es: seq<Delivery>)
    requires Unrefreshed(v, g, f, l, es) && b.lastSeq != 0 && g > b.lastSeq + 1 && l <= |v.diffs|
    ensures Run(b, es).bids == Replay(b.bids, v.BidDiffs()[f - 1..l])
    ensures Run(b, es).asks == Replay(b.asks, v.AskDiffs()[f - 1..l])
    ensures Run(b, es).lastSeq == if l < f then 0 else l
    decreases l
  {
    var n := |es| - 1;
    if l < f {
      assert es[..0] == [] && v.BidDiffs()[f - 1..l] == [] && v.AskDiffs()[f - 1..l] == [];
    } else {
      UnrefreshedPrefix(v, g, f, l, es);
      OldBookGoesOn(v, b, g, f, l - 1, es[..n]);
      OldBookStep(v, b, Run(b, es[..n]), es[n], f, l);
    }
  }

  lemma OldBookStep(v: Venue, b: Book, before: Book, e: Delivery, f: int, l: int)
    requires 1 <= f <= l <= |v.diffs| && e.seqNo == l && e.diff == v.diffs[l - 1]
    requires before.lastSeq == if l - 1 < f then 0 else l - 1
    requires before.bids == Replay(b.bids, v.BidDiffs()[f - 1..l - 1])
    requires before.asks == Replay(b.asks, v.AskDiffs()[f - 1..l - 1])
    ensures Step(before, e)
            == Book(Replay(b.bids, v.BidDiffs()[f - 1..l]), Replay(b.asks, v.AskDiffs()[f - 1..l]), l)
  {
    ReplayExtended(b.bids, v.BidDiffs(), f, l);
    ReplayExtended(b.asks, v.AskDiffs(), f, l);
  }

  lemma ReplayExtended(side: Side, ds: Diffs, f: int, l: int)
    requires 1 <= f <= l <= |ds|
    ensures Replay(side, ds[f - 1..l]) == Overlay(Replay(side, ds[f - 1..l - 1]), ds[l - 1])
  {
    var run := ds[f - 1..l];
    assert run[..|run| - 1] == ds[f - 1..l - 1];
  }

  /**
   A gap whose refresh fails. The book was the venue's at `j`; the messages before `f` are lost, that which
   revealed the gap among them, and those from `f` on are applied to the old book without question. It is the
   venue's again at `l` exactly when what was missed makes no difference any more, price by price.
   */
  lemma FailedRefreshExact(v: Venue, b: Book, j: nat, g: nat, f: nat, l: nat, es: seq<Delivery>)
    requires j < f <= l <= |v.diffs| && b.bids == v.BidsAt(j) && b.asks == v.AsksAt(j)
    requires Unrefreshed(v, g, f, l, es) && b.lastSeq != 0 && g > b.lastSeq + 1
    ensures Run(b, es) == Book(v.BidsAt(l), v.AsksAt(l), l)
            <==> && v.PlainRun(f, l)
                 && MadeUpFor(v.bids, v.BidDiffs(), j, f, l) && MadeUpFor(v.asks, v.AskDiffs(), j, f, l)
  {
    OldBookGoesOn(v, b, g, f, l, es);
    MissedExact(v.bids, v.BidDiffs(), j, f, l);
    MissedExact(v.asks, v.AskDiffs(), j, f, l);
  }

  // ---- Startup ----

  /** The venue's messages `f..l` in order, with no snapshot requested on the way. */
  predicate Stream(v: Venue, f: nat, l: nat, es: seq<Delivery>)
  {
    && |es| == l - f + 1
    && forall i :: 0 <= i < |es| ==> FromVenue(v, es[i]) && es[i].seqNo == f + i && es[i].reply.None?
  }

  lemma StreamPrefix(v: Venue, f: nat, l: nat, es: seq<Delivery>)
    requires f < l && Stream(v, f, l, es)
    ensures Stream(v, f, l - 1, es[..|es| - 1])
  {
  }

  lemma {:induction false} SnapshotThenStream(v: Venue, b: Book, s: Snapshot, f: nat, l: nat, es: seq<Delivery>)
    requires 1 <= f <= l && Stream(v, f, l, es) && b.lastSeq == 0
    ensures ObserveRun(Fresh(s), b, es) == Replaying(s, f) && Run(b, es).lastSeq == l
  {
    var n := |es| - 1;
    assert es[n].seqNo == l;
    if f == l {
      assert es[..0] == [];
    } else {
      StreamPrefix(v, f, l, es);
      SnapshotThenStream(v, b, s, f, l - 1, es[..n]);
    }
  }

  function Started(s: Snapshot): Book
  {
    Book(Load(s.bids), Load(s.asks), 0)
  }

  /** A book started from a snapshot of moment `s`, and the plainly spelled messages `f..l` that follow. */
  ghost predicate Startup(v: Venue, snap: Snapshot, s: nat, f: nat, l: nat, es: seq<Delivery>)
    requires 1 <= f <= l <= |v.diffs|
  {
    Honest(v, snap) && snap.lastUpdateId == s && Stream(v, f, l, es) && v.PlainRun(f, l)
  }

  lemma StreamIsKnown(v: Venue, snap: Snapshot, s: nat, f: nat, l: nat, es: seq<Delivery>)
    requires 1 <= f <= l <= |v.diffs| && Startup(v, snap, s, f, l, es)
    ensures Run(Started(snap), es) == v.KnownBook(snap, f, l)
            <==> Converges(v.bids, v.BidDiffs(), Load(snap.bids), f, l)
                 && Converges(v.asks, v.AskDiffs(), Load(snap.asks), f, l)
  {
    SnapshotThenStream(v, Started(snap), snap, f, l, es);
    AllFromVenue(v, f, l, es);
    ObservedBook(v, Fresh(snap), Started(snap), es);
  }

  lemma AllFromVenue(v: Venue, f: nat, l: nat, es: seq<Delivery>)
    requires Stream(v, f, l, es)
    ensures forall e :: e in es ==> FromVenue(v, e)
  {
  }

  lemma StartupConverges(v: Venue, snap: Snapshot, s: nat, f: nat, l: nat, es: seq<Delivery>)
    requires 1 <= f <= s + 1 <= l + 1 && f <= l <= |v.diffs| && Startup(v, snap, s, f, l, es)
    ensures Run(Started(snap), es) == v.KnownBook(snap, f, l)
  {
    StreamIsKnown(v, snap, s, f, l, es);
    SpellingExact(v.bids, v.BidDiffs(), Load(snap.bids), s, f, l);
    SpellingExact(v.asks, v.AskDiffs(), Load(snap.asks), s, f, l);
  }

  /** A venue with one bid, whose size changes at the `k`-th diff. */
  function OneBid(n: nat, k: nat): (v: Venue)
    ensures |v.diffs| == n
  {
    Venue(ONE_BID, map[], seq(n, i requires 0 <= i < n => Diff(OneChange(n, k)[i], [])))
  }

  function Plainly(v: Venue, f: nat, l: nat): seq<Delivery>
    requires 1 <= f <= l <= |v.diffs|
  {
    seq(l - f + 1, i requires 0 <= i < l - f + 1 => Delivery(f + i, v.diffs[f + i - 1], None))
  }

  function OneBidSnapshot(s: nat, size: string): Snapshot
  {
    Snapshot(s, [Level("1", size)], [])
  }

  lemma {:induction false} NoAsks(ds: Diffs, p: string)
    requires forall i :: 0 <= i < |ds| ==> ds[i] == []
    ensures Ending(ds, p) == None
  {
    if ds != [] {
      NoAsks(ds[..|ds| - 1], p);
    }
  }

  lemma OneBidIsPlain(n: nat, k: nat, f: nat, l: nat)
    requires 1 <= f <= l <= n
    ensures OneBid(n, k).BidDiffs() == OneChange(n, k) && OneBid(n, k).PlainRun(f, l)
  {
    var v := OneBid(n, k);
    assert v.BidDiffs() == OneChange(n, k);
    OneChangeEnding(n, k, f - 1, l);
    var none := v.AskDiffs()[f - 1..l];
    forall p
      ensures PlainAt(none, p)
    {
      NoAsks(none, p);
    }
  }

  lemma OneBidListed(n: nat, k: nat, s: nat)
    requires s <= n
    ensures OneBid(n, k).BidDiffs() == OneChange(n, k)
    ensures var size := if 0 < k <= s then "2" else "1";
            OneBid(n, k).BidsAt(s) == map["1" := size] && Load(OneBidSnapshot(s, size).bids) == map["1" := size]
  {
    var v, size := OneBid(n, k), if 0 < k <= s then "2" else "1";
    var got, want := v.BidsAt(s), map["1" := size];
    assert v.BidDiffs() == OneChange(n, k) && OneChange(n, k)[..s] == OneChange(n, k)[0..s];
    forall p
      ensures SizeAt(got, p) == SizeAt(want, p)
    {
      OneChangeOthers(n, k, s, p);
      OneChangeEnding(n, k, 0, s);
      EvolveEnding(ONE_BID, OneChange(n, k)[..s], p);
      OneEntry(p);
    }
    SidesEqual(got, want);
    assert [Level("1", size)][..0] == [];
  }

  lemma StartupDiverges(s: nat, f: nat, l: nat, n: nat) returns (v: Venue, snap: Snapshot, es: seq<Delivery>)
    requires 1 <= f <= l <= n && s <= n && !(f <= s + 1 <= l + 1)
    ensures |v.diffs| == n && Startup(v, snap, s, f, l, es)
    ensures Run(Started(snap), es) != v.KnownBook(snap, f, l)
  {
    var k := if f > s + 1 then s + 1 else s;
    v := OneBid(n, k);
    es := Plainly(v, f, l);
    snap := OneBidSnapshot(s, if 0 < k <= s then "2" else "1");
    OneBidListed(n, k, s);
    OneBidIsPlain(n, k, f, l);
    OneChangeDiverges(s, f, l, n);
    StreamIsKnown(v, snap, s, f, l, es);
  }

  /**
   At startup the snapshot is taken before the socket connects, and the first message is accepted whatever
   its number. Started from a snapshot of moment `s` and fed `f..l` in order, the book is right on all it
   can know, for every venue and snapshot, exactly when no message is missing before `f` and the snapshot
   has been passed.
   */
  lemma StartupExact(s: nat, f: nat, l: nat, n: nat)
    requires 1 <= f <= l <= n && s <= n
    ensures (forall v: Venue, snap: Snapshot, es: seq<Delivery> ::
               |v.diffs| == n && Startup(v, snap, s, f, l, es) ==> Run(Started(snap), es) == v.KnownBook(snap, f, l))
            <==> f <= s + 1 <= l + 1
  {
    if f <= s + 1 <= l + 1 {
      forall v: Venue, snap: Snapshot, es: seq<Delivery> | |v.diffs| == n && Startup(v, snap, s, f, l, es)
        ensures Run(Started(snap), es) == v.KnownBook(snap, f, l)
      {
        StartupConverges(v, snap, s, f, l, es);
      }
    } else {
      var v, snap, es := StartupDiverges(s, f, l, n);
    }
  }
}
