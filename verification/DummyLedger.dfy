/**
 Runs of the order handler with the dummy connector behind it: the connector's own list of fills is the
 third record of the trades.
 */
module DummyLedger {
  import opened Wrappers
  import opened OrderService
  import V = DummyVenue
  import S = Store

  /** One request, with the identifiers and clock readings it meets. */
  datatype Visit = Visit(request: Request, draw: V.Draw, clock: Clock)

  function Answer(d: V.Dummy, parse: Parser, v: Visit): Reply
  {
    match Check(v.request, parse)
    case Refused(_) => Failed
    case Valid(order, _) => Done(V.Respond(d, order, v.draw))
  }

  /** The connector after the visits; a refused request never reaches it. */
  function DummyRun(price: real, parse: Parser, vs: seq<Visit>): V.Dummy
  {
    if vs == [] then V.Dummy(price, [], map[])
    else
      var n := |vs| - 1;
      var d := DummyRun(price, parse, vs[..n]);
      var a := Answer(d, parse, vs[n]);
      if a.Failed? then d else V.Placed(d, a.resp)
  }

  /**
   What one visit adds to the connector: nothing if the request is refused, otherwise one fill of the amount
   asked for, at the price asked for, or the connector's own if none or 0 was.
   */
  lemma VisitFills(price: real, parse: Parser, vs: seq<Visit>, v: Visit)
    ensures var before, after := DummyRun(price, parse, vs).fills, DummyRun(price, parse, vs + [v]).fills;
            if !Acceptable(v.request, parse) then after == before
            else
              var b := v.request.body.value;
              && |after| == |before| + 1 && after[..|before|] == before
              && parse(b.amount) == Some(after[|before|].quantity)
              && after[|before|].price
                 == (if b.price == "" || parse(b.price) == Some(0.0) then price else parse(b.price).value)
              && after[|before|].tradeId == v.draw.tradeId && after[|before|].timestamp == v.draw.now
  {
    assert (vs + [v])[..|vs|] == vs;
    CheckExact(v.request, parse);
    DummyKeepsPrice(price, parse, vs);
  }

  lemma {:induction false} DummyKeepsPrice(price: real, parse: Parser, vs: seq<Visit>)
    ensures DummyRun(price, parse, vs).price == price
  {
    if vs != [] {
      DummyKeepsPrice(price, parse, vs[..|vs| - 1]);
    }
  }

  /** What the handler sees of the visits. */
  function Acts(price: real, parse: Parser, vs: seq<Visit>): seq<Act>
  {
    if vs == [] then []
    else
      var n := |vs| - 1;
      Acts(price, parse, vs[..n])
      + [Place(vs[n].request, Answer(DummyRun(price, parse, vs[..n]), parse, vs[n]), vs[n].clock)]
  }

  /** A stored fill without what the handler added to it. */
  function Plain(f: S.Fill): V.VenueFill
  {
    V.VenueFill(f.venueOrderId, f.tradeId, f.price, f.quantity, f.fee, f.feeAsset, f.timestamp)
  }

  predicate SameFills(stored: seq<S.Fill>, fills: seq<V.VenueFill>)
  {
    |stored| == |fills| && forall i :: 0 <= i < |stored| ==> Plain(stored[i]) == fills[i]
  }

  predicate FreshTrades(fills: seq<V.VenueFill>)
  {
    forall i, j :: 0 <= i < j < |fills| ==> fills[i].tradeId != fills[j].tradeId
  }

  /** The fills the handler offers to the store: the connector's, each with venue and pair. */
  ghost predicate Offers(venue: string, offered: seq<S.Fill>, fills: seq<V.VenueFill>)
  {
    && SameFills(offered, fills)
    && forall i :: 0 <= i < |offered| ==> offered[i].venue == venue && offered[i].timestamp != 0
  }

  lemma OfferOne(
      venue: string, offered: seq<S.Fill>, fills: seq<V.VenueFill>, stored: seq<S.Fill>, t: Ticket, clock: Clock)
    requires Offers(venue, offered, fills) && S.StoredAll(stored, S.FirstOccurrences(offered))
    requires t.venue == venue && |t.resp.fills| == 1
    requires t.resp.fills[0].venueOrderId == t.resp.venueOrderId && t.resp.fills[0].timestamp != 0
    ensures Offers(venue, offered + [t.StoredFill(t.resp.fills[0])], fills + t.resp.fills)
    ensures S.StoredAll(AddFills(stored, t, 1, clock), S.FirstOccurrences(offered + [t.StoredFill(t.resp.fills[0])]))
  {
    var f := t.StoredFill(t.resp.fills[0]);
    assert Plain(f) == t.resp.fills[0];
    S.AddFillFirst(stored, offered, f, clock(2));
    assert AddFills(stored, t, 0, clock) == stored;
  }

  /** Readings of the clock are never the zero time. */
  predicate ClockIsSet(vs: seq<Visit>)
  {
    forall i :: 0 <= i < |vs| ==> vs[i].draw.now != 0
  }

  lemma LastVisit(venue: string, price: real, parse: Parser, vs: seq<Visit>)
    requires vs != []
    ensures var n := |vs| - 1;
            var d := DummyRun(price, parse, vs[..n]);
            var a := Place(vs[n].request, Answer(d, parse, vs[n]), vs[n].clock);
            Run(venue, parse, Acts(price, parse, vs))
            == Step(venue, parse, Run(venue, parse, Acts(price, parse, vs[..n])), a)
  {
    var n := |vs| - 1;
    var before := Acts(price, parse, vs[..n]);
    assert Acts(price, parse, vs)[..|before|] == before;
  }

  /** The store has the first occurrences of what was offered, and store and connector the same orders. */
  ghost predicate Tracks(venue: string, offered: seq<S.Fill>, l: Ledger, d: V.Dummy)
  {
    && Offers(venue, offered, d.fills)
    && S.StoredAll(l.records.fills, S.FirstOccurrences(offered))
    && l.records.orders.Keys == d.orders.Keys
  }

  lemma VisitTracks(venue: string, parse: Parser, offered: seq<S.Fill>, l: Ledger, d: V.Dummy, v: Visit)
    returns (offered': seq<S.Fill>)
    requires Tracks(venue, offered, l, d) && v.draw.now != 0
    ensures var answer := Answer(d, parse, v);
            Tracks(venue, offered', Step(venue, parse, l, Place(v.request, answer, v.clock)),
                   if answer.Failed? then d else V.Placed(d, answer.resp))
  {
    offered' := offered;
    var t := TicketOf(venue, parse, Place(v.request, Answer(d, parse, v), v.clock));
    if t.Some? {
      OfferOne(venue, offered, d.fills, l.records.fills, t.value, v.clock);
      offered' := offered + [t.value.StoredFill(t.value.resp.fills[0])];
    }
  }

  lemma {:induction false} RunOffers(
      venue: string, price: real, parse: Parser, vs: seq<Visit>)
    returns (offered: seq<S.Fill>)
    requires ClockIsSet(vs)
    ensures Tracks(venue, offered, Run(venue, parse, Acts(price, parse, vs)), DummyRun(price, parse, vs))
  {
    offered := [];
    if vs != [] {
      var n := |vs| - 1;
      offered := RunOffers(venue, price, parse, vs[..n]);
      LastVisit(venue, price, parse, vs);
      offered := VisitTracks(venue, parse, offered, Run(venue, parse, Acts(price, parse, vs[..n])),
                             DummyRun(price, parse, vs[..n]), vs[n]);
    }
  }

  /**
   Over every run the stored fills, stripped of venue and pair, are the connector's own fills in order,
   exactly when the connector never drew a trade id twice; and store and connector always know the same
   client order ids.
   */
  lemma StoreIsConnector(venue: string, price: real, parse: Parser, vs: seq<Visit>)
    requires ClockIsSet(vs)
    ensures var records, d := Run(venue, parse, Acts(price, parse, vs)).records, DummyRun(price, parse, vs);
            && (SameFills(records.fills, d.fills) <==> FreshTrades(d.fills))
            && records.orders.Keys == d.orders.Keys
  {
    var offered := RunOffers(venue, price, parse, vs);
    var fills := DummyRun(price, parse, vs).fills;
    S.FirstOccurrencesAll(offered);
    FreshIsNoTradeTwice(venue, offered, fills);
  }

  lemma FreshIsNoTradeTwice(venue: string, offered: seq<S.Fill>, fills: seq<V.VenueFill>)
    requires Offers(venue, offered, fills)
    ensures FreshTrades(fills) <==> S.NoTradeTwice(offered)
  {
    forall i, j | 0 <= i < j < |fills|
      ensures fills[i].tradeId != fills[j].tradeId <==> !S.SameTrade(offered[i], offered[j])
    {
      assert Plain(offered[i]) == fills[i] && Plain(offered[j]) == fills[j];
    }
  }
}
