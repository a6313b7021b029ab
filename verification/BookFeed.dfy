/**
 A subscription to several pairs: the message handler of the Binance adapter, its reconstructors, and the
 bounded channel of updates it offers to the consumer.
 */
module BookFeed {
  import opened Wrappers
  import opened Levels
  import opened OrderBook
  import opened Convergence
  import opened BookRuns
  import opened Shown
  import opened PriceOrder

  const UPDATE_CAPACITY: nat := 64
  const UPDATE_DEPTH: nat := 20

  /** What the socket delivers: bytes that do not parse, or a depth event of some stream. */
  datatype Message = Malformed | Depth(stream: string, seqNo: int, diff: Diff)

  datatype BookUpdate = BookUpdate(pair: string, bids: seq<Level>, asks: seq<Level>)

  /** Only the letters of ASCII have a case here. */
  function ToLower(s: string): (r: string)
    ensures |r| == |s| && forall i :: 0 <= i < |s| ==>
              if 'A' <= s[i] <= 'Z' then r[i] as int == s[i] as int + 32 else r[i] == s[i]
  {
    seq(|s|, i requires 0 <= i < |s| => if 'A' <= s[i] <= 'Z' then s[i] - 'A' + 'a' else s[i])
  }

  function ToUpper(s: string): (r: string)
    ensures |r| == |s| && forall i :: 0 <= i < |s| ==>
              if 'a' <= s[i] <= 'z' then r[i] as int == s[i] as int - 32 else r[i] == s[i]
  {
    seq(|s|, i requires 0 <= i < |s| => if 'a' <= s[i] <= 'z' then s[i] - 'a' + 'A' else s[i])
  }

  /** Position of the first '@', or the length if there is none. */
  function FirstAt(s: string): (i: nat)
    ensures i <= |s| && (forall j :: 0 <= j < i ==> s[j] != '@') && (i < |s| ==> s[i] == '@')
  {
    if s == "" || s[0] == '@' then 0 else 1 + FirstAt(s[1..])
  }

  /** "btcusdt@depth" is about "btcusdt"; a name without '@', or starting with it, is taken whole. */
  function StreamToPair(stream: string): string
  {
    var i := FirstAt(stream);
    if 0 < i < |stream| then stream[..i] else stream
  }

  /** The pair is what precedes the first '@'; only without one, or with it in front, is the name kept whole. */
  lemma StreamToPairCuts(stream: string)
    ensures var pair := StreamToPair(stream);
            if '@' !in stream || stream[0] == '@' then pair == stream
            else pair != "" && '@' !in pair && pair + "@" <= stream
  {
    var i := FirstAt(stream);
    assert i < |stream| ==> stream[i] in stream;
    assert 0 < i < |stream| ==> stream[..i] + "@" == stream[..i + 1];
  }

  /** The stream asked for on account of a pair is one whose messages find the pair's own book. */
  lemma StreamFindsItsPair(p: string)
    requires p != "" && '@' !in p
    ensures var pair := StreamToPair(ToLower(p) + "@depth");
            ToLower(pair) == ToLower(p) && ToUpper(pair) == ToUpper(p)
  {
    var low, stream := ToLower(p), ToLower(p) + "@depth";
    assert forall i :: 0 <= i < |p| ==> p[i] in p && stream[i] == low[i] != '@';
    assert stream[|p|] == '@';
    assert FirstAt(stream) == |p| && stream[..|p|] == low;
    assert ToLower(low) == low && ToUpper(low) == ToUpper(p);
  }

  type Books = map<string, Book>

  /** Pairs that differ only in case share one book. */
  function Keys(pairs: seq<string>): set<string>
  {
    set p | p in pairs :: ToLower(p)
  }

  predicate Concerns(m: Message, key: string)
  {
    m.Depth? && ToLower(StreamToPair(m.stream)) == key
  }

  /** What a message does to all books, given the answer to a snapshot request it may cause. */
  function FeedStep(books: Books, m: Message, reply: Option<Snapshot>): Books
  {
    if m.Malformed? then books
    else
      var key := ToLower(StreamToPair(m.stream));
      if key !in books then books
      else books[key := Step(books[key], Delivery(m.seqNo, m.diff, reply))]
  }

  /** The update a book gives rise to: the first twenty levels of each side, if both have any. */
  ghost function UpdateOf(pair: string, b: Book): Option<BookUpdate>
  {
    if b.bids == map[] || b.asks == map[] then None
    else Some(BookUpdate(ToUpper(pair), TopLevels(b.bids, true, UPDATE_DEPTH), TopLevels(b.asks, false, UPDATE_DEPTH)))
  }

  /** A send that does not wait: a full channel loses the update. */
  ghost function Offer(queue: seq<BookUpdate>, u: Option<BookUpdate>): seq<BookUpdate>
  {
    if u.Some? && |queue| < UPDATE_CAPACITY then queue + [u.value] else queue
  }

  /** Only an accepted diff is followed by an update; a gap is not, even if its refresh succeeds. */
  ghost function OfferedBy(before: Books, m: Message, after: Books): Option<BookUpdate>
    requires before.Keys == after.Keys
  {
    if m.Malformed? then None
    else
      var key := ToLower(StreamToPair(m.stream));
      if key !in before || Judge(before[key].lastSeq, m.seqNo) != Accepted then None
      else UpdateOf(StreamToPair(m.stream), after[key])
  }

  /** The snapshots taken before the socket connects, one per pair in turn. */
  function Boot(books: Books, pairs: seq<string>, replies: seq<Option<Snapshot>>): Books
    requires |pairs| == |replies|
  {
    if pairs == [] then books
    else
      var n := |pairs| - 1;
      var before := Boot(books, pairs[..n], replies[..n]);
      var key := ToLower(pairs[n]);
      if replies[n].None? || key !in before then before
      else before[key := Refresh(before[key], replies[n].value)]
  }

  /** The updates offered meanwhile: one per snapshot that arrived, showing the book just loaded. */
  ghost function BootQueue(
      books: Books, queue: seq<BookUpdate>, pairs: seq<string>, replies: seq<Option<Snapshot>>): seq<BookUpdate>
    requires |pairs| == |replies|
  {
    if pairs == [] then queue
    else
      var n := |pairs| - 1;
      var before := BootQueue(books, queue, pairs[..n], replies[..n]);
      var after := Boot(books, pairs, replies);
      if replies[n].None? || ToLower(pairs[n]) !in after then before
      else Offer(before, UpdateOf(pairs[n], after[ToLower(pairs[n])]))
  }

  /** What the snapshots before the connection leave: each book has the last one that arrived for it. */
  lemma {:induction false} BootExact(
      books: Books, pairs: seq<string>, replies: seq<Option<Snapshot>>, key: string, i: int)
    requires |pairs| == |replies| && key in books
    requires 0 <= i < |pairs| && ToLower(pairs[i]) == key && replies[i].Some?
    requires forall j :: i < j < |pairs| && ToLower(pairs[j]) == key ==> replies[j].None?
    ensures Boot(books, pairs, replies).Keys == books.Keys
    ensures Boot(books, pairs, replies)[key]
            == Book(Load(replies[i].value.bids), Load(replies[i].value.asks), books[key].lastSeq)
  {
    var n := |pairs| - 1;
    if i < n {
      BootExact(books, pairs[..n], replies[..n], key, i);
    } else {
      BootKeeps(books, pairs[..n], replies[..n], key);
    }
  }

  /** Numbers are kept, and so are the sides of a book for which no snapshot arrived. */
  lemma {:induction false} BootKeeps(books: Books, pairs: seq<string>, replies: seq<Option<Snapshot>>, key: string)
    requires |pairs| == |replies| && key in books
    ensures Boot(books, pairs, replies).Keys == books.Keys
    ensures Boot(books, pairs, replies)[key].lastSeq == books[key].lastSeq
    ensures (forall j :: 0 <= j < |pairs| && ToLower(pairs[j]) == key ==> replies[j].None?) ==>
              Boot(books, pairs, replies)[key] == books[key]
  {
    if pairs != [] {
      var n := |pairs| - 1;
      BootKeeps(books, pairs[..n], replies[..n], key);
    }
  }

  /** One snapshot more is one update more, if its book then has levels on both sides and the queue has room. */
  lemma BootOffers(
      books: Books, queue: seq<BookUpdate>, pairs: seq<string>, replies: seq<Option<Snapshot>>, p: string,
      reply: Option<Snapshot>)
    requires |pairs| == |replies| && ToLower(p) in books
    ensures var before, after := BootQueue(books, queue, pairs, replies), Boot(books, pairs + [p], replies + [reply]);
            && ToLower(p) in after
            && BootQueue(books, queue, pairs + [p], replies + [reply])
               == if reply.None? then before else Offered(before, p, after[ToLower(p)])
  {
    assert (pairs + [p])[..|pairs|] == pairs && (replies + [reply])[..|pairs|] == replies;
    BootKeeps(books, pairs, replies, ToLower(p));
  }

  class BookFeed {
    var recons: map<string, BookReconstructor>
    var out: seq<BookUpdate>

    /** Every pair has a reconstructor of its own. */
    ghost predicate Valid()
      reads this`recons
    {
      forall k, l :: k in recons && l in recons && k != l ==> recons[k] != recons[l]
    }

    ghost function Books(): Books
      reads this`recons, recons.Values
    {
      map k | k in recons :: recons[k].State()
    }

    constructor (pairs: seq<string>)
      ensures Valid() && fresh(recons.Values) && out == []
      ensures Books() == map k | k in Keys(pairs) :: Book(map[], map[], 0)
    {
      recons := map[];
      out := [];
      new;
      for i := 0 to |pairs|
        invariant Valid() && fresh(recons.Values) && out == []
        invariant recons.Keys == Keys(pairs[..i])
        invariant forall k :: k in recons ==> recons[k].State() == Book(map[], map[], 0)
      {
        var r := new BookReconstructor();
        assert pairs[..i + 1] == pairs[..i] + [pairs[i]];
        ghost var was := recons;
        recons := recons[ToLower(pairs[i]) := r];
        assert recons.Values <= was.Values + {r};
      }
      assert pairs[..|pairs|] == pairs;
    }

    method EmitUpdate(key: string, pair: string)
      requires Valid() && key in recons
      modifies this`out
      ensures out == Offer(old(out), UpdateOf(pair, Books()[key]))
    {
      var bids, asks := recons[key].TopN(UPDATE_DEPTH);
      TopLevelsEmpty(recons[key].bids, true, UPDATE_DEPTH);
      TopLevelsEmpty(recons[key].asks, false, UPDATE_DEPTH);
      if |bids| > 0 && |asks| > 0 {
        if |out| < UPDATE_CAPACITY {
          out := out + [BookUpdate(ToUpper(pair), bids, asks)];
        }
      }
    }

    method Handle(m: Message, reply: Option<Snapshot>)
      requires Valid()
      modifies this`out, recons.Values
      ensures Valid()
      ensures Books() == FeedStep(old(Books()), m, reply)
      ensures out == Offer(old(out), OfferedBy(old(Books()), m, Books()))
    {
      if m.Malformed? {
        return;
      }
      var pair := StreamToPair(m.stream);
      var key := ToLower(pair);
      if key !in recons {
        return;
      }
      HandleFor(key, pair, Delivery(m.seqNo, m.diff, reply));
    }

    method HandleFor(key: string, pair: string, e: Delivery)
      requires Valid() && key in recons
      modifies this`out, recons.Values
      ensures Books() == old(Books())[key := Step(old(Books())[key], e)]
      ensures out == Offer(old(out), if Judge(old(Books())[key].lastSeq, e.seqNo) == Accepted
                                     then UpdateOf(pair, Books()[key]) else None)
    {
      var accepted := Deliver(key, e);
      if accepted {
        EmitUpdate(key, pair);
      }
    }

    /** Apply a diff; if it reveals a gap, forget the sequence number and ask for a snapshot. */
    method Deliver(key: string, e: Delivery) returns (accepted: bool)
      requires Valid() && key in recons
      modifies recons.Values
      ensures accepted <==> Judge(old(Books())[key].lastSeq, e.seqNo) == Accepted
      ensures Books() == old(Books())[key := Step(old(Books())[key], e)]
    {
      var r := recons[key];
      var ok, gap := r.ApplyDiff(e.seqNo, e.diff);
      if gap {
        r.MarkGap();
        if e.reply.Some? {
          r.ApplySnapshot(e.reply.value);
        }
      }
      assert r.State() == Step(old(Books())[key], e);
      accepted := ok;
    }

    method BootOne(pair: string, reply: Option<Snapshot>)
      requires Valid() && ToLower(pair) in recons
      modifies this`out, recons.Values
      ensures Valid()
      ensures Books() == if reply.None? then old(Books())
                         else old(Books())[ToLower(pair) := Refresh(old(Books())[ToLower(pair)], reply.value)]
      ensures out == if reply.None? then old(out) else Offer(old(out), UpdateOf(pair, Books()[ToLower(pair)]))
    {
      var key := ToLower(pair);
      if reply.Some? {
        recons[key].ApplySnapshot(reply.value);
        EmitUpdate(key, pair);
      }
    }

    method Bootstrap(pairs: seq<string>, replies: seq<Option<Snapshot>>)
      requires Valid() && |pairs| == |replies|
      requires forall p :: p in pairs ==> ToLower(p) in recons
      modifies this`out, recons.Values
      ensures Valid()
      ensures Books() == Boot(old(Books()), pairs, replies)
      ensures out == BootQueue(old(Books()), old(out), pairs, replies)
    {
      for i := 0 to |pairs|
        invariant Valid()
        invariant Books() == Boot(old(Books()), pairs[..i], replies[..i])
        invariant out == BootQueue(old(Books()), old(out), pairs[..i], replies[..i])
      {
        assert pairs[..i + 1][..i] == pairs[..i] && replies[..i + 1][..i] == replies[..i];
        BootOne(pairs[i], replies[i]);
      }
      assert pairs[..|pairs|] == pairs && replies[..|replies|] == replies;
    }
  }

  /** Without pairs there is nothing to subscribe to: an error, and no feed. */
  method SubscribeBook(pairs: seq<string>) returns (feed: BookFeed?)
    ensures feed == null <==> pairs == []
    ensures feed != null ==> feed.Valid() && fresh(feed) && fresh(feed.recons.Values) && feed.out == []
    ensures feed != null ==> feed.Books() == map k | k in Keys(pairs) :: Book(map[], map[], 0)
  {
    if |pairs| == 0 {
      return null;
    }
    feed := new BookFeed(pairs);
  }

  /** A message that repeats one already seen changes neither books nor queue. */
  lemma RepetitionIsIgnored(books: Books, queue: seq<BookUpdate>, m: Message, reply: Option<Snapshot>, key: string)
    requires Concerns(m, key) && key in books && books[key].lastSeq != 0 && m.seqNo <= books[key].lastSeq
    ensures FeedStep(books, m, reply) == books && Offer(queue, OfferedBy(books, m, books)) == queue
  {
    assert books[key := books[key]] == books;
  }

  /**
   A message that reveals a loss takes the number away from its book and gives it the levels of the snapshot
   that arrives, if one does; it is not applied, and offers nothing.
   */
  lemma LossIsForgotten(books: Books, queue: seq<BookUpdate>, m: Message, reply: Option<Snapshot>, key: string)
    requires Concerns(m, key) && key in books && books[key].lastSeq != 0 && m.seqNo > books[key].lastSeq + 1
    ensures var b, after := books[key], FeedStep(books, m, reply);
            && after == books[key := after[key]] && after[key].lastSeq == 0
            && (reply.None? ==> after[key].bids == b.bids && after[key].asks == b.asks)
            && (reply.Some? ==>
                  after[key].bids == Load(reply.value.bids) && after[key].asks == Load(reply.value.asks))
            && Offer(queue, OfferedBy(books, m, after)) == queue
  {
  }

  /** Any other is applied to its book, and offered if the queue has fewer than 64 and both sides have levels. */
  lemma NextIsApplied(books: Books, queue: seq<BookUpdate>, m: Message, reply: Option<Snapshot>, key: string)
    requires Concerns(m, key) && key in books
    requires books[key].lastSeq == 0 || m.seqNo == books[key].lastSeq + 1
    ensures var b, after := books[key], FeedStep(books, m, reply);
            && after == books[key := after[key]] && after[key].lastSeq == m.seqNo
            && Applied(b.bids, m.diff.bids, after[key].bids) && Applied(b.asks, m.diff.asks, after[key].asks)
            && Offer(queue, OfferedBy(books, m, after)) == Offered(queue, StreamToPair(m.stream), after[key])
  {
    StepExact(books[key], Delivery(m.seqNo, m.diff, reply));
  }

  /** The queue after an update of a book, in so many words. */
  ghost function Offered(queue: seq<BookUpdate>, pair: string, b: Book): seq<BookUpdate>
  {
    if |queue| < 64 && b.bids != map[] && b.asks != map[]
    then queue + [BookUpdate(ToUpper(pair), TopLevels(b.bids, true, 20), TopLevels(b.asks, false, 20))]
    else queue
  }

  // ---- Pairs do not interfere ----

  function FeedRun(books: Books, ms: seq<(Message, Option<Snapshot>)>): Books
  {
    if ms == [] then books
    else var n := |ms| - 1; FeedStep(FeedRun(books, ms[..n]), ms[n].0, ms[n].1)
  }

  /** The messages about one pair, in order. */
  function About(key: string, ms: seq<(Message, Option<Snapshot>)>): seq<Delivery>
  {
    if ms == [] then []
    else
      var n := |ms| - 1;
      About(key, ms[..n]) +
      if Concerns(ms[n].0, key) then [Delivery(ms[n].0.seqNo, ms[n].0.diff, ms[n].1)] else []
  }

  lemma FeedStepAt(books: Books, m: Message, reply: Option<Snapshot>, key: string)
    requires key in books
    ensures FeedStep(books, m, reply).Keys == books.Keys
    ensures FeedStep(books, m, reply)[key]
            == if Concerns(m, key) then Step(books[key], Delivery(m.seqNo, m.diff, reply)) else books[key]
  {
  }

  lemma RunOneMore(b: Book, es: seq<Delivery>, e: Delivery)
    ensures Run(b, es + [e]) == Step(Run(b, es), e)
  {
    assert (es + [e])[..|es|] == es;
  }

  /** The book of a pair after any run is the run of that pair's own messages, whatever else is mixed in. */
  lemma {:induction false} PairsAreIndependent(books: Books, ms: seq<(Message, Option<Snapshot>)>, key: string)
    requires key in books
    ensures FeedRun(books, ms).Keys == books.Keys
    ensures FeedRun(books, ms)[key] == Run(books[key], About(key, ms))
  {
    if ms != [] {
      var n := |ms| - 1;
      PairsAreIndependent(books, ms[..n], key);
      FeedStepAt(FeedRun(books, ms[..n]), ms[n].0, ms[n].1, key);
      var before := About(key, ms[..n]);
      if Concerns(ms[n].0, key) {
        RunOneMore(books[key], before, Delivery(ms[n].0.seqNo, ms[n].0.diff, ms[n].1));
      } else {
        assert before + [] == before;
      }
    }
  }

  // ---- From gap to update ----

  /**
   The first `n` known levels of a side are all there are to show: the snapshot listed the whole side, or
   listed it up to some price, and at least `n` levels known at `l` lie at or before that price.
   */
  ghost predicate EnoughToShow(start: Side, ds: Diffs, listed: Side, s: nat, f: nat, l: nat, descending: bool, n: nat)
    requires s <= |ds| && 1 <= f <= l + 1 <= |ds| + 1
  {
    || listed == VenueAt(start, ds, s)
    || exists worst ::
         && Covers(listed, VenueAt(start, ds, s), descending, worst)
         && |NotAfter(Replay(listed, ds[f - 1..l]), descending, worst)| >= n
  }

  lemma EnoughIsShown(start: Side, ds: Diffs, listed: Side, s: nat, f: nat, l: nat, descending: bool, n: nat)
    requires 1 <= f <= s + 1 <= l + 1 <= |ds| + 1 && Plain(ds[f - 1..l])
    requires PartOf(listed, VenueAt(start, ds, s)) && EnoughToShow(start, ds, listed, s, f, l, descending, n)
    ensures TopLevels(Known(VenueAt(start, ds, l), listed, ds[f - 1..l]), descending, n)
            == TopLevels(VenueAt(start, ds, l), descending, n)
  {
    SpellingExact(start, ds, listed, s, f, l);
    if listed == VenueAt(start, ds, s) {
      WholeSnapshot(start, ds, s, f, l);
    } else {
      var worst :| && Covers(listed, VenueAt(start, ds, s), descending, worst)
                   && |NotAfter(Replay(listed, ds[f - 1..l]), descending, worst)| >= n;
      ShownIsVenue(start, ds, listed, s, f, l, descending, worst, n);
    }
  }

  /** The messages join on, spell removals plainly, and the snapshot reached far enough down both sides. */
  ghost predicate CanShow(v: Venue, snap: Snapshot, f: nat, l: nat)
  {
    && Honest(v, snap) && 1 <= f <= snap.lastUpdateId + 1 <= l + 1 <= |v.diffs| + 1 && v.PlainRun(f, l)
    && EnoughToShow(v.bids, v.BidDiffs(), Load(snap.bids), snap.lastUpdateId, f, l, true, UPDATE_DEPTH)
    && EnoughToShow(v.asks, v.AskDiffs(), Load(snap.asks), snap.lastUpdateId, f, l, false, UPDATE_DEPTH)
  }

  /** An update depends on a book only through the levels it shows. */
  lemma SameLevelsSameUpdate(pair: string, b: Book, c: Book)
    requires TopLevels(b.bids, true, UPDATE_DEPTH) == TopLevels(c.bids, true, UPDATE_DEPTH)
    requires TopLevels(b.asks, false, UPDATE_DEPTH) == TopLevels(c.asks, false, UPDATE_DEPTH)
    ensures UpdateOf(pair, b) == UpdateOf(pair, c)
  {
    TopLevelsEmpty(b.bids, true, UPDATE_DEPTH);
    TopLevelsEmpty(c.bids, true, UPDATE_DEPTH);
    TopLevelsEmpty(b.asks, false, UPDATE_DEPTH);
    TopLevelsEmpty(c.asks, false, UPDATE_DEPTH);
  }

  lemma KnownShowsVenue(v: Venue, snap: Snapshot, f: nat, l: nat, pair: string)
    requires CanShow(v, snap, f, l)
    ensures UpdateOf(pair, v.KnownBook(snap, f, l)) == UpdateOf(pair, Book(v.BidsAt(l), v.AsksAt(l), l))
  {
    var s := snap.lastUpdateId;
    EnoughIsShown(v.bids, v.BidDiffs(), Load(snap.bids), s, f, l, true, UPDATE_DEPTH);
    EnoughIsShown(v.asks, v.AskDiffs(), Load(snap.asks), s, f, l, false, UPDATE_DEPTH);
    SameLevelsSameUpdate(pair, v.KnownBook(snap, f, l), Book(v.BidsAt(l), v.AsksAt(l), l));
  }

  /**
   The messages about a pair, the last of all included, reveal a gap at `g`, bring the snapshot `snap`, and
   go on in order to `l`, past it.
   */
  ghost predicate Recovers(
      books: Books, ms: seq<(Message, Option<Snapshot>)>, key: string, v: Venue, g: nat, snap: Snapshot, l: nat)
  {
    && ms != [] && Concerns(ms[|ms| - 1].0, key)
    && key in books && books[key].lastSeq != 0 && g > books[key].lastSeq + 1
    && InOrderFrom(v, g, About(key, ms))
    && About(key, ms)[0].reply == Some(snap) && Honest(v, snap)
    && l == g + |About(key, ms)| - 1 && 1 <= g < l <= |v.diffs| && g <= snap.lastUpdateId <= l
  }

  /**
   In a subscription to many pairs: if a pair's own messages reveal a gap at `g`, bring a snapshot of the
   venue's book at some `s >= g`, of all its levels or of enough of the best, and go on in order to some
   `l >= s`, then whatever messages of other pairs come between, the last of them offers the consumer the
   first twenty levels of each side of the venue's own book at `l`.
   */
  lemma {:induction false} RecoveredUpdate(
      books: Books, ms: seq<(Message, Option<Snapshot>)>, key: string, v: Venue, g: nat, snap: Snapshot, l: nat)
    requires Recovers(books, ms, key, v, g, snap, l) && CanShow(v, snap, g + 1, l)
    ensures var n := |ms| - 1;
            && FeedRun(books, ms[..n]).Keys == FeedRun(books, ms).Keys
            && OfferedBy(FeedRun(books, ms[..n]), ms[n].0, FeedRun(books, ms))
               == UpdateOf(StreamToPair(ms[n].0.stream), Book(v.BidsAt(l), v.AsksAt(l), l))
  {
    OfferIsOfBook(books, ms, key, v, g, snap, l);
    RecoveredBookShows(books, ms, key, v, g, snap, l, StreamToPair(ms[|ms| - 1].0.stream));
  }

  lemma OfferIsOfBook(
      books: Books, ms: seq<(Message, Option<Snapshot>)>, key: string, v: Venue, g: nat, snap: Snapshot, l: nat)
    ensures Recovers(books, ms, key, v, g, snap, l) ==>
              var n := |ms| - 1;
              && FeedRun(books, ms[..n]).Keys == FeedRun(books, ms).Keys && key in FeedRun(books, ms)
              && OfferedBy(FeedRun(books, ms[..n]), ms[n].0, FeedRun(books, ms))
                 == UpdateOf(StreamToPair(ms[n].0.stream), FeedRun(books, ms)[key])
  {
    if Recovers(books, ms, key, v, g, snap, l) {
      var n := |ms| - 1;
      PairsAreIndependent(books, ms, key);
      PairsAreIndependent(books, ms[..n], key);
      AboutLast(key, ms);
      LastIsAccepted(v, books[key], g, About(key, ms));
      OfferOfAccepted(FeedRun(books, ms[..n]), ms[n].0, FeedRun(books, ms), key);
    }
  }

  lemma RecoveredBookShows(
      books: Books, ms: seq<(Message, Option<Snapshot>)>, key: string, v: Venue, g: nat, snap: Snapshot, l: nat,
      pair: string)
    requires Recovers(books, ms, key, v, g, snap, l) && CanShow(v, snap, g + 1, l)
    ensures key in FeedRun(books, ms)
    ensures UpdateOf(pair, FeedRun(books, ms)[key]) == UpdateOf(pair, Book(v.BidsAt(l), v.AsksAt(l), l))
  {
    RecoveredBook(books, ms, key, v, g, snap, l);
    KnownShowsVenue(v, snap, g + 1, l, pair);
  }

  lemma OfferOfAccepted(before: Books, m: Message, after: Books, key: string)
    requires before.Keys == after.Keys && key in before && Concerns(m, key)
    requires Judge(before[key].lastSeq, m.seqNo) == Accepted
    ensures OfferedBy(before, m, after) == UpdateOf(StreamToPair(m.stream), after[key])
  {
  }

  lemma RecoveredBook(
      books: Books, ms: seq<(Message, Option<Snapshot>)>, key: string, v: Venue, g: nat, snap: Snapshot, l: nat)
    requires Recovers(books, ms, key, v, g, snap, l) && CanShow(v, snap, g + 1, l)
    ensures key in FeedRun(books, ms) && FeedRun(books, ms)[key] == v.KnownBook(snap, g + 1, l)
  {
    PairsAreIndependent(books, ms, key);
    GapRecovered(v, books[key], g, About(key, ms), snap, l);
  }

  // ---- The best prices ----

  /** Prices rank by value at `s` and at `l`, and the snapshot listed the whole side or enough of the best by value. */
  ghost predicate BestListed(
      start: Side, ds: Diffs, listed: Side, s: nat, f: nat, l: nat, price: map<string, Price>, descending: bool, n: nat)
    requires s <= |ds| && 1 <= f <= l + 1 <= |ds| + 1
  {
    && Numeric(VenueAt(start, ds, s), price) && Numeric(VenueAt(start, ds, l), price)
    && (|| listed == VenueAt(start, ds, s)
        || exists worst :: worst in listed
             && (forall p :: p in VenueAt(start, ds, s) && p !in listed ==> ByValue(worst, p, price, descending))
             && |NotAfter(Replay(listed, ds[f - 1..l]), descending, worst)| >= n)
  }

  lemma BestListedIsEnough(
      start: Side, ds: Diffs, listed: Side, s: nat, f: nat, l: nat, price: map<string, Price>, descending: bool, n: nat)
    requires s <= |ds| && 1 <= f <= l + 1 <= |ds| + 1 && PartOf(listed, VenueAt(start, ds, s))
    requires BestListed(start, ds, listed, s, f, l, price, descending, n)
    ensures EnoughToShow(start, ds, listed, s, f, l, descending, n)
  {
    var side := VenueAt(start, ds, s);
    if listed != side {
      var worst :| worst in listed
                   && (forall p :: p in side && p !in listed ==> ByValue(worst, p, price, descending))
                   && |NotAfter(Replay(listed, ds[f - 1..l]), descending, worst)| >= n;
      NumericRankingExact(side, price, descending);
      BestByValueCover(side, price, listed, descending, worst);
    }
  }

  /** The prices of both sides, for the venue of this pair. */
  ghost predicate BestOfBoth(v: Venue, snap: Snapshot, f: nat, l: nat, price: map<string, Price>)
  {
    var s := snap.lastUpdateId;
    && Honest(v, snap) && 1 <= f <= s + 1 <= l + 1 <= |v.diffs| + 1 && v.PlainRun(f, l)
    && BestListed(v.bids, v.BidDiffs(), Load(snap.bids), s, f, l, price, true, UPDATE_DEPTH)
    && BestListed(v.asks, v.AskDiffs(), Load(snap.asks), s, f, l, price, false, UPDATE_DEPTH)
  }

  lemma BestOfBothCanShow(v: Venue, snap: Snapshot, f: nat, l: nat, price: map<string, Price>)
    requires BestOfBoth(v, snap, f, l, price)
    ensures CanShow(v, snap, f, l)
    ensures Numeric(v.BidsAt(l), price) && Numeric(v.AsksAt(l), price)
  {
    var s := snap.lastUpdateId;
    BestListedIsEnough(v.bids, v.BidDiffs(), Load(snap.bids), s, f, l, price, true, UPDATE_DEPTH);
    BestListedIsEnough(v.asks, v.AskDiffs(), Load(snap.asks), s, f, l, price, false, UPDATE_DEPTH);
  }

  /** The update shows the highest bids and the lowest asks that the venue has, best first. */
  ghost predicate ShowsBest(u: BookUpdate, pair: string, bids: Side, asks: Side, price: map<string, Price>)
  {
    && u.pair == ToUpper(pair)
    && BestByValue(u.bids, bids, price, true, 20) && BestByValue(u.asks, asks, price, false, 20)
  }

  /**
   From gap to the best prices: where prices rank by value and the snapshot listed the best levels by value,
   deep enough, the consumer is offered the twenty highest bids and the twenty lowest asks of the venue's own
   book at `l`, best first; nothing only if the venue has no bids or no asks.
   */
  lemma RecoveredBest(
      books: Books, ms: seq<(Message, Option<Snapshot>)>, key: string, v: Venue, g: nat, snap: Snapshot, l: nat,
      price: map<string, Price>)
    requires Recovers(books, ms, key, v, g, snap, l) && BestOfBoth(v, snap, g + 1, l, price)
    ensures var n := |ms| - 1;
            && FeedRun(books, ms[..n]).Keys == FeedRun(books, ms).Keys
            && var u := OfferedBy(FeedRun(books, ms[..n]), ms[n].0, FeedRun(books, ms));
               if v.BidsAt(l) == map[] || v.AsksAt(l) == map[] then u.None?
               else u.Some? && ShowsBest(u.value, StreamToPair(ms[n].0.stream), v.BidsAt(l), v.AsksAt(l), price)
  {
    BestOfBothCanShow(v, snap, g + 1, l, price);
    RecoveredUpdate(books, ms, key, v, g, snap, l);
    ShownBestByValue(v.BidsAt(l), price, true, UPDATE_DEPTH);
    ShownBestByValue(v.AsksAt(l), price, false, UPDATE_DEPTH);
  }

  lemma AboutLast(key: string, ms: seq<(Message, Option<Snapshot>)>)
    requires ms != [] && Concerns(ms[|ms| - 1].0, key)
    ensures var n, es := |ms| - 1, About(key, ms);
            && es != [] && es[..|es| - 1] == About(key, ms[..n])
            && es[|es| - 1] == Delivery(ms[n].0.seqNo, ms[n].0.diff, ms[n].1)
  {
  }

  lemma LastIsAccepted(v: Venue, b: Book, g: nat, es: seq<Delivery>)
    requires InOrderFrom(v, g, es) && |es| > 1 && b.lastSeq != 0 && g > b.lastSeq + 1
    ensures Judge(Run(b, es[..|es| - 1]).lastSeq, es[|es| - 1].seqNo) == Accepted
  {
    InOrderPrefix(v, g, es);
    GapThenInOrder(v, b, g, es[..|es| - 1]);
    assert es[|es| - 1].seqNo == g + |es| - 1;
  }

  lemma InOrderPrefix(v: Venue, g: nat, es: seq<Delivery>)
    requires InOrderFrom(v, g, es) && |es| > 1
    ensures InOrderFrom(v, g, es[..|es| - 1])
  {
  }
}
