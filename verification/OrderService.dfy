/**
 Placing orders over HTTP: validate, call the connector, record the order and its fills in the store, and
 emit the audit events. Three records of the same trades, and why they agree.
 */
module OrderService {
  import opened Wrappers
  import opened Sequences
  import opened Audit
  import V = DummyVenue
  import S = Store

  datatype OrderBody = OrderBody(
    venue: string, pair: string, side: string, orderType: string, amount: string, price: string)

  /** `body` is the decoded request, if it decodes. */
  datatype Request = Request(httpMethod: string, body: Option<OrderBody>)

  datatype Checked = Refused(status: int) | Valid(order: V.OrderRequest, body: OrderBody)

  /** The decimal parser of the library, as an oracle. */
  type Parser = string -> Option<real>

  function Check(r: Request, parse: Parser): Checked
  {
    if r.httpMethod != "POST" then Refused(405)
    else if r.body.None? then Refused(400)
    else
      var b := r.body.value;
      if b.venue == "" || b.pair == "" || b.side == "" || b.orderType == "" || b.amount == "" then Refused(400)
      else if parse(b.amount).None? || parse(b.amount).value <= 0.0 then Refused(400)
      else if b.price != "" && parse(b.price).None? then Refused(400)
      else
        var price := if b.price == "" then 0.0 else parse(b.price).value;
        Valid(V.OrderRequest("", b.pair, b.side, b.orderType, parse(b.amount).value, price), b)
  }

  /** A request that is passed on: a POST that decodes, with all fields but the price, and sound numbers. */
  predicate Acceptable(r: Request, parse: Parser)
  {
    && r.httpMethod == "POST" && r.body.Some?
    && var b := r.body.value;
       && b.venue != "" && b.pair != "" && b.side != "" && b.orderType != ""
       && b.amount != "" && parse(b.amount).Some? && parse(b.amount).value > 0.0
       && (b.price != "" ==> parse(b.price).Some?)
  }

  /** The order is the one the body asks for; without a price it has the price 0. */
  predicate AsAsked(o: V.OrderRequest, b: OrderBody, parse: Parser)
  {
    && o.clientOrderId == "" && o.symbol == b.pair && o.side == b.side && o.orderType == b.orderType
    && parse(b.amount) == Some(o.quantity)
    && (if b.price == "" then o.price == 0.0 else parse(b.price) == Some(o.price))
  }

  /** Which requests are refused, and how; and what the others ask for. */
  lemma CheckExact(r: Request, parse: Parser)
    ensures Check(r, parse).Valid? <==> Acceptable(r, parse)
    ensures Check(r, parse).Valid? ==> AsAsked(Check(r, parse).order, r.body.value, parse)
    ensures Check(r, parse).Refused? ==> Check(r, parse).status == if r.httpMethod == "POST" then 400 else 405
  {
  }

  /** The connector's answer. */
  datatype Reply = Failed | Done(resp: V.OrderResponse)

  /** Clock readings while one request is served, by position; none is the zero time. */
  type Clock = nat -> int

  /** Everything the handler writes down about one accepted order. */
  datatype Ticket = Ticket(venue: string, order: V.OrderRequest, resp: V.OrderResponse)
  {
    function StoredOrder(): S.Order
    {
      S.Order(resp.venueOrderId, resp.clientOrderId, venue, order.symbol, order.side, order.orderType,
              resp.status, resp.filledQty, resp.avgPrice, order.quantity, order.price, 0, 0)
    }

    function StoredFill(f: V.VenueFill): S.Fill
    {
      S.Fill(resp.venueOrderId, f.tradeId, venue, order.symbol, f.price, f.quantity, f.fee, f.feeAsset, f.timestamp)
    }

    function PlacedEvent(): Event
    {
      OrderPlaced(venue, 0, resp.venueOrderId, resp.clientOrderId, order.symbol, order.side, order.orderType,
                  order.quantity, order.price)
    }

    function FillEvent(f: V.VenueFill): Event
    {
      FillReceived(venue, 0, resp.venueOrderId, order.symbol,
                   FillDetail(f.tradeId, f.price, f.quantity, f.fee, f.feeAsset, f.timestamp))
    }
  }

  function AddFills(fills: seq<S.Fill>, t: Ticket, n: nat, clock: Clock): seq<S.Fill>
    requires n <= |t.resp.fills|
  {
    if n == 0 then fills
    else S.AddFill(AddFills(fills, t, n - 1, clock), t.StoredFill(t.resp.fills[n - 1]), clock(n + 1))
  }

  function FillEvents(t: Ticket, n: nat, clock: Clock): seq<Event>
    requires n <= |t.resp.fills|
  {
    if n == 0 then []
    else FillEvents(t, n - 1, clock)
         + [Stamped(t.FillEvent(t.resp.fills[n - 1]), clock(|t.resp.fills| + 2 + n))]
  }

  function Written(r: S.Records, t: Ticket, clock: Clock): S.Records
  {
    S.Records(S.AddOrder(r.orders, t.StoredOrder(), clock(0), clock(1)), AddFills(r.fills, t, |t.resp.fills|, clock))
  }

  function Emitted(t: Ticket, clock: Clock): seq<Event>
  {
    var n := |t.resp.fills|;
    [Stamped(t.PlacedEvent(), clock(n + 2))] + FillEvents(t, n, clock)
  }

  datatype Response = Error(status: int) | Ok(ticket: Ticket)

  class Service {
    const venueName: string
    const store: S.MemStore
    const audit: InMemorySink?

    constructor (venueName: string, store: S.MemStore, audit: InMemorySink?)
      ensures this.venueName == venueName && this.store == store && this.audit == audit
    {
      this.venueName, this.store, this.audit := venueName, store, audit;
    }

    /** `reply` is what the connector answers if it is called. */
    method PlaceOrder(r: Request, parse: Parser, reply: Reply, clock: Clock) returns (out: Response)
      modifies store, audit
      ensures out == match Check(r, parse)
                     case Refused(status) => Error(status)
                     case Valid(order, _) =>
                       if reply.Failed? then Error(502) else Ok(Ticket(venueName, order, reply.resp))
      ensures out.Ok? <==> Acceptable(r, parse) && reply.Done?
      ensures out.Error? ==>
                out.status == if r.httpMethod != "POST" then 405 else if Acceptable(r, parse) then 502 else 400
      ensures out.Ok? ==>
                && out.ticket.venue == venueName && out.ticket.resp == reply.resp
                && AsAsked(out.ticket.order, r.body.value, parse)
      ensures store.State() == if out.Ok? then Written(old(store.State()), out.ticket, clock) else old(store.State())
      ensures audit != null ==>
                audit.events == old(audit.events) + if out.Ok? then Emitted(out.ticket, clock) else []
    {
      if r.httpMethod != "POST" {
        return Error(405);
      }
      if r.body.None? {
        return Error(400);
      }
      var b := r.body.value;
      if b.venue == "" || b.pair == "" || b.side == "" || b.orderType == "" || b.amount == "" {
        return Error(400);
      }
      var amount := parse(b.amount);
      if amount.None? || amount.value <= 0.0 {
        return Error(400);
      }
      var price := 0.0;
      if b.price != "" {
        var p := parse(b.price);
        if p.None? {
          return Error(400);
        }
        price := p.value;
      }
      if reply.Failed? {
        return Error(502);
      }
      var t := Ticket(venueName, V.OrderRequest("", b.pair, b.side, b.orderType, amount.value, price), reply.resp);
      WriteStore(t, clock);
      WriteAudit(t, clock);
      return Ok(t);
    }

    method WriteStore(t: Ticket, clock: Clock)
      modifies store
      ensures store.State() == Written(old(store.State()), t, clock)
    {
      var _ := store.RecordOrder(t.StoredOrder(), clock(0), clock(1));
      WriteFills(t, clock);
    }

    method WriteFills(t: Ticket, clock: Clock)
      modifies store`fills
      ensures store.fills == AddFills(old(store.fills), t, |t.resp.fills|, clock)
    {
      for i := 0 to |t.resp.fills|
        invariant store.fills == AddFills(old(store.fills), t, i, clock)
      {
        var _ := store.RecordFill(t.StoredFill(t.resp.fills[i]), clock(i + 2));
      }
    }

    method WriteAudit(t: Ticket, clock: Clock)
      modifies audit
      ensures audit != null ==> audit.events == old(audit.events) + Emitted(t, clock)
    {
      if audit != null {
        var n := |t.resp.fills|;
        audit.Emit(t.PlacedEvent(), clock(n + 2));
        for i := 0 to n
          invariant audit.events
                    == old(audit.events) + [Stamped(t.PlacedEvent(), clock(n + 2))] + FillEvents(t, i, clock)
        {
          audit.Emit(t.FillEvent(t.resp.fills[i]), clock(n + 3 + i));
        }
      }
    }
  }

  // ---- Runs: the store against the log ----

  /** A request to place an order, or another handler writing to the same log. */
  datatype Act =
    | Place(request: Request, reply: Reply, clock: Clock)
    | Cancel(orderId: string, at: int)
    | Rotate(at: int)
    | Balances(assets: seq<BalanceDetail>, clock: Clock)

  datatype Ledger = Ledger(records: S.Records, log: seq<Event>)

  function TicketOf(venue: string, parse: Parser, a: Act): Option<Ticket>
  {
    if !a.Place? || a.reply.Failed? then None
    else match Check(a.request, parse)
      case Refused(_) => None
      case Valid(order, _) => Some(Ticket(venue, order, a.reply.resp))
  }

  /** One event an asset, in the order the venue's map happens to be read. */
  function BalanceEvents(venue: string, assets: seq<BalanceDetail>, clock: Clock): seq<Event>
  {
    if assets == [] then []
    else
      var n := |assets| - 1;
      BalanceEvents(venue, assets[..n], clock) + [Stamped(BalanceSnapshot(venue, 0, assets[n]), clock(n))]
  }

  lemma {:induction false} BalanceEventsTellNothing(venue: string, assets: seq<BalanceDetail>, clock: Clock)
    ensures forall e :: e in BalanceEvents(venue, assets, clock) ==> e.BalanceSnapshot?
  {
    if assets != [] {
      BalanceEventsTellNothing(venue, assets[..|assets| - 1], clock);
    }
  }

  function Step(venue: string, parse: Parser, l: Ledger, a: Act): Ledger
  {
    match a
    case Cancel(id, at) => l.(log := l.log + [Stamped(OrderCanceled(venue, 0, id), at)])
    case Rotate(at) => l.(log := l.log + [Stamped(CredentialRotation(venue, 0), at)])
    case Balances(assets, clock) => l.(log := l.log + BalanceEvents(venue, assets, clock))
    case Place(_, _, clock) =>
      var t := TicketOf(venue, parse, a);
      if t.None? then l else Ledger(Written(l.records, t.value, clock), l.log + Emitted(t.value, clock))
  }

  function Run(venue: string, parse: Parser, acts: seq<Act>): Ledger
  {
    if acts == [] then Ledger(S.EMPTY, [])
    else Step(venue, parse, Run(venue, parse, acts[..|acts| - 1]), acts[|acts| - 1])
  }

  /** The fill an audit event tells of. */
  function FillIn(e: Event): seq<S.Fill>
  {
    match e
    case FillReceived(venue, _, orderId, pair, f) =>
      [S.Fill(orderId, f.tradeId, venue, pair, f.price, f.quantity, f.fee, f.feeAsset, f.ts)]
    case _ => []
  }

  function AuditedFills(log: seq<Event>): seq<S.Fill>
  {
    if log == [] then [] else AuditedFills(log[..|log| - 1]) + FillIn(log[|log| - 1])
  }

  lemma AuditedOne(log: seq<Event>, e: Event)
    ensures AuditedFills(log + [e]) == AuditedFills(log) + FillIn(e)
    ensures FillIn(e) == [] ==> AuditedFills(log + [e]) == AuditedFills(log)
  {
    assert (log + [e])[..|log|] == log;
  }

  /**
   The stored fills are the audited fills with later repetitions of a trade left out, in order (and a time
   supplied where the venue gave none).
   */
  predicate FillsMatch(fills: seq<S.Fill>, log: seq<Event>)
  {
    S.StoredAll(fills, S.FirstOccurrences(AuditedFills(log)))
  }

  lemma EmittedSplit(log: seq<Event>, t: Ticket, clock: Clock)
    ensures var n := |t.resp.fills|;
            log + Emitted(t, clock) == (log + [Stamped(t.PlacedEvent(), clock(n + 2))]) + FillEvents(t, n, clock)
  {
  }

  /** The first placement event of a client order id. */
  predicate FirstPlaced(log: seq<Event>, i: int, id: string)
  {
    && 0 <= i < |log| && log[i].OrderPlaced? && log[i].clientId == id
    && forall j :: 0 <= j < i ==> !(log[j].OrderPlaced? && log[j].clientId == id)
  }

  /** The stored order and the event tell the same, as far as the event goes. */
  predicate SameOrder(o: S.Order, e: Event)
  {
    && e.OrderPlaced?
    && o.venueOrderId == e.orderId && o.clientOrderId == e.clientId && o.venue == e.venue && o.pair == e.pair
    && o.side == e.side && o.orderType == e.orderType && o.quantity == e.quantity && o.price == e.price
  }

  ghost predicate OrdersAgree(orders: map<string, S.Order>, log: seq<Event>)
  {
    && (forall id :: id in orders <==> exists i :: FirstPlaced(log, i, id))
    && (forall id, i :: FirstPlaced(log, i, id) ==> id in orders && SameOrder(orders[id], log[i]))
  }

  lemma {:induction false} NoPlacement(orders: map<string, S.Order>, log: seq<Event>, more: seq<Event>)
    requires OrdersAgree(orders, log) && forall e :: e in more ==> !e.OrderPlaced?
    ensures OrdersAgree(orders, log + more)
  {
    forall id, i
      ensures FirstPlaced(log, i, id) <==> FirstPlaced(log + more, i, id)
    {
      SamePlacements(log, more, i, id);
    }
    forall id
      ensures id in orders <==> exists i :: FirstPlaced(log + more, i, id)
    {
      if id in orders {
        var i :| FirstPlaced(log, i, id);
        assert FirstPlaced(log + more, i, id);
      }
    }
  }

  lemma SamePlacements(log: seq<Event>, more: seq<Event>, i: int, id: string)
    requires forall e :: e in more ==> !e.OrderPlaced?
    ensures FirstPlaced(log, i, id) <==> FirstPlaced(log + more, i, id)
  {
    var all := log + more;
    if |log| <= i < |all| {
      assert all[i] == more[i - |log|];
    }
    if 0 <= i < |log| {
      assert forall j :: 0 <= j <= i ==> all[j] == log[j];
      if FirstPlaced(all, i, id) {
        forall j | 0 <= j < i
          ensures !(log[j].OrderPlaced? && log[j].clientId == id)
        {
          assert !(all[j].OrderPlaced? && all[j].clientId == id);
        }
      }
    }
  }

  lemma OnePlacement(orders: map<string, S.Order>, log: seq<Event>, o: S.Order, e: Event, now: int, later: int)
    requires OrdersAgree(orders, log) && SameOrder(o, e)
    ensures OrdersAgree(S.AddOrder(orders, o, now, later), log + [e])
  {
    var all := log + [e];
    var more := S.AddOrder(orders, o, now, later);
    var key := o.clientOrderId;
    forall id, i
      ensures FirstPlaced(all, i, id) <==> FirstPlaced(log, i, id) || (i == |log| && id == key && key !in orders)
    {
      PlacementAppended(orders, log, e, i, id);
    }
    forall id
      ensures id in more <==> exists i :: FirstPlaced(all, i, id)
    {
      if id in orders {
        var i :| FirstPlaced(log, i, id);
        assert FirstPlaced(all, i, id);
      } else if id == key {
        assert FirstPlaced(all, |log|, id);
      }
    }
  }

  lemma PlacementAppended(orders: map<string, S.Order>, log: seq<Event>, e: Event, i: int, id: string)
    requires OrdersAgree(orders, log) && e.OrderPlaced?
    ensures FirstPlaced(log + [e], i, id)
            <==> FirstPlaced(log, i, id) || (i == |log| && id == e.clientId && e.clientId !in orders)
  {
    var all := log + [e];
    assert forall j :: 0 <= j < |log| ==> all[j] == log[j];
    if 0 <= i < |log| {
      if FirstPlaced(all, i, id) {
        forall j | 0 <= j < i
          ensures !(log[j].OrderPlaced? && log[j].clientId == id)
        {
          assert !(all[j].OrderPlaced? && all[j].clientId == id);
        }
      }
    } else if i == |log| && id == e.clientId {
      if id in orders {
        var k :| FirstPlaced(log, k, id);
        assert all[k].OrderPlaced? && all[k].clientId == id;
      } else {
        NeverPlaced(orders, log, id);
        assert FirstPlaced(all, i, id);
      }
    }
  }

  lemma NeverPlaced(orders: map<string, S.Order>, log: seq<Event>, id: string)
    requires OrdersAgree(orders, log) && id !in orders
    ensures forall j :: 0 <= j < |log| ==> !(log[j].OrderPlaced? && log[j].clientId == id)
  {
    if j :| 0 <= j < |log| && log[j].OrderPlaced? && log[j].clientId == id {
      var k := FirstOfPlaced(log, j, id);
    }
  }

  lemma {:induction false} FirstOfPlaced(log: seq<Event>, j: int, id: string) returns (k: int)
    requires 0 <= j < |log| && log[j].OrderPlaced? && log[j].clientId == id
    ensures FirstPlaced(log, k, id)
    decreases j
  {
    if i :| 0 <= i < j && log[i].OrderPlaced? && log[i].clientId == id {
      k := FirstOfPlaced(log, i, id);
    } else {
      k := j;
    }
  }

  lemma {:induction false} FillEventsPlaceNothing(t: Ticket, n: nat, clock: Clock)
    requires n <= |t.resp.fills|
    ensures forall e :: e in FillEvents(t, n, clock) ==> !e.OrderPlaced?
  {
    if n > 0 {
      FillEventsPlaceNothing(t, n - 1, clock);
    }
  }

  lemma TicketKeepsOrders(orders: map<string, S.Order>, log: seq<Event>, t: Ticket, clock: Clock)
    requires OrdersAgree(orders, log)
    ensures OrdersAgree(S.AddOrder(orders, t.StoredOrder(), clock(0), clock(1)), log + Emitted(t, clock))
  {
    var n := |t.resp.fills|;
    var placed := Stamped(t.PlacedEvent(), clock(n + 2));
    OnePlacement(orders, log, t.StoredOrder(), placed, clock(0), clock(1));
    FillEventsPlaceNothing(t, n, clock);
    NoPlacement(S.AddOrder(orders, t.StoredOrder(), clock(0), clock(1)), log + [placed], FillEvents(t, n, clock));
    EmittedSplit(log, t, clock);
  }

  lemma StepKeepsOrders(venue: string, parse: Parser, l: Ledger, a: Act)
    requires OrdersAgree(l.records.orders, l.log)
    ensures OrdersAgree(Step(venue, parse, l, a).records.orders, Step(venue, parse, l, a).log)
  {
    match a
    case Cancel(id, at) =>
      NoPlacement(l.records.orders, l.log, [Stamped(OrderCanceled(venue, 0, id), at)]);
    case Rotate(at) =>
      NoPlacement(l.records.orders, l.log, [Stamped(CredentialRotation(venue, 0), at)]);
    case Balances(assets, clock) =>
      BalanceEventsTellNothing(venue, assets, clock);
      NoPlacement(l.records.orders, l.log, BalanceEvents(venue, assets, clock));
    case Place(_, _, clock) =>
      var t := TicketOf(venue, parse, a);
      if t.Some? {
        TicketKeepsOrders(l.records.orders, l.log, t.value, clock);
      }
  }

  /** Over every run the stored orders are the first audited placement of each client order id. */
  lemma {:induction false} StoredOrdersAreAudited(venue: string, parse: Parser, acts: seq<Act>)
    ensures var l := Run(venue, parse, acts); OrdersAgree(l.records.orders, l.log)
  {
    if acts != [] {
      var n := |acts| - 1;
      StoredOrdersAreAudited(venue, parse, acts[..n]);
      StepKeepsOrders(venue, parse, Run(venue, parse, acts[..n]), acts[n]);
    }
  }

  // ---- The records against the requests and the connector's replies ----

  /** The act places an order, and the reply gives it this client order id. */
  predicate Carries(parse: Parser, a: Act, id: string)
  {
    a.Place? && Acceptable(a.request, parse) && a.reply.Done? && a.reply.resp.clientOrderId == id
  }

  predicate FirstCarried(parse: Parser, acts: seq<Act>, i: int, id: string)
  {
    0 <= i < |acts| && Carries(parse, acts[i], id) && forall j :: 0 <= j < i ==> !Carries(parse, acts[j], id)
  }

  /** The stored order is what was asked for in the act, and how the connector's reply says it went. */
  predicate Tells(o: S.Order, venue: string, parse: Parser, a: Act)
    requires a.Place? && a.request.body.Some? && a.reply.Done?
  {
    var b, resp := a.request.body.value, a.reply.resp;
    && o.venue == venue && o.pair == b.pair && o.side == b.side && o.orderType == b.orderType
    && parse(b.amount) == Some(o.quantity)
    && (if b.price == "" then o.price == 0.0 else parse(b.price) == Some(o.price))
    && o.venueOrderId == resp.venueOrderId && o.clientOrderId == resp.clientOrderId
    && o.status == resp.status && o.filledQty == resp.filledQty && o.avgPrice == resp.avgPrice
    && o.createdAt == a.clock(0) && o.updatedAt == a.clock(1)
  }

  lemma StepStoresOrder(venue: string, parse: Parser, l: Ledger, a: Act, id: string)
    ensures var before, after := l.records.orders, Step(venue, parse, l, a).records.orders;
            && (id in after <==> id in before || Carries(parse, a, id))
            && (id in before ==> id in after && after[id] == before[id])
            && (id !in before && Carries(parse, a, id) ==> id in after && Tells(after[id], venue, parse, a))
  {
    if a.Place? {
      CheckExact(a.request, parse);
    }
  }

  /** Over every run the store has, for each client order id, the order of the first reply that carried it. */
  lemma {:induction false} StoredOrderIsFirstReply(venue: string, parse: Parser, acts: seq<Act>, id: string)
    ensures var orders := Run(venue, parse, acts).records.orders;
            && (id in orders <==> exists i :: FirstCarried(parse, acts, i, id))
            && forall i :: FirstCarried(parse, acts, i, id) ==> id in orders && Tells(orders[id], venue, parse, acts[i])
  {
    if acts != [] {
      var n := |acts| - 1;
      StoredOrderIsFirstReply(venue, parse, acts[..n], id);
      StepStoresOrder(venue, parse, Run(venue, parse, acts[..n]), acts[n], id);
      forall i
        ensures FirstCarried(parse, acts, i, id) <==>
                FirstCarried(parse, acts[..n], i, id)
                || (i == n && Carries(parse, acts[n], id) && id !in Run(venue, parse, acts[..n]).records.orders)
      {
        FirstCarriedStep(parse, acts, i, id);
      }
      if i :| FirstCarried(parse, acts[..n], i, id) {
        assert FirstCarried(parse, acts, i, id);
      } else if Carries(parse, acts[n], id) {
        assert FirstCarried(parse, acts, n, id);
      }
    }
  }

  lemma FirstCarriedStep(parse: Parser, acts: seq<Act>, i: int, id: string)
    requires acts != []
    ensures var n := |acts| - 1;
            FirstCarried(parse, acts, i, id) <==>
            FirstCarried(parse, acts[..n], i, id)
            || (i == n && Carries(parse, acts[n], id) && forall j :: !FirstCarried(parse, acts[..n], j, id))
  {
    var n := |acts| - 1;
    assert forall j :: 0 <= j < n ==> acts[..n][j] == acts[j];
    if i == n && Carries(parse, acts[n], id) {
      if j :| 0 <= j < n && Carries(parse, acts[j], id) {
        var k := FirstOfCarried(parse, acts[..n], j, id);
      }
    }
  }

  lemma {:induction false} FirstOfCarried(parse: Parser, acts: seq<Act>, j: int, id: string) returns (k: int)
    requires 0 <= j < |acts| && Carries(parse, acts[j], id)
    ensures FirstCarried(parse, acts, k, id)
    decreases j
  {
    if i :| 0 <= i < j && Carries(parse, acts[i], id) {
      k := FirstOfCarried(parse, acts, i, id);
    } else {
      k := j;
    }
  }

  /** The fills of the first `n` in a reply, as a fill of the venue and pair in question. */
  function FillsIn(venue: string, pair: string, resp: V.OrderResponse, n: nat): seq<S.Fill>
    requires n <= |resp.fills|
  {
    if n == 0 then []
    else
      var f := resp.fills[n - 1];
      FillsIn(venue, pair, resp, n - 1) +
      [S.Fill(resp.venueOrderId, f.tradeId, venue, pair, f.price, f.quantity, f.fee, f.feeAsset, f.timestamp)]
  }

  /** What the connector reported about the order an act placed, if it placed one. */
  function RepliedBy(venue: string, parse: Parser, a: Act): seq<S.Fill>
  {
    if a.Place? && Acceptable(a.request, parse) && a.reply.Done?
    then FillsIn(venue, a.request.body.value.pair, a.reply.resp, |a.reply.resp.fills|) else []
  }

  /** All fills the connector reported on orders that were passed on to it, in order. */
  function RepliedFills(venue: string, parse: Parser, acts: seq<Act>): seq<S.Fill>
  {
    if acts == [] then []
    else RepliedFills(venue, parse, acts[..|acts| - 1]) + RepliedBy(venue, parse, acts[|acts| - 1])
  }

  lemma {:induction false} AuditedConcat(a: seq<Event>, b: seq<Event>)
    ensures AuditedFills(a + b) == AuditedFills(a) + AuditedFills(b)
  {
    if b == [] {
      assert a + b == a;
    } else {
      AuditedConcat(a, b[..|b| - 1]);
      LastOfConcat(a, b);
      Regroup(AuditedFills(a), AuditedFills(b[..|b| - 1]), FillIn(b[|b| - 1]));
    }
  }

  lemma {:induction false} AuditedNone(more: seq<Event>)
    requires forall e :: e in more ==> !e.FillReceived?
    ensures AuditedFills(more) == []
  {
    if more != [] {
      AuditedNone(more[..|more| - 1]);
      assert more[|more| - 1] in more;
    }
  }

  lemma {:induction false} AuditedFillEvents(t: Ticket, n: nat, clock: Clock)
    requires n <= |t.resp.fills|
    ensures AuditedFills(FillEvents(t, n, clock)) == FillsIn(t.venue, t.order.symbol, t.resp, n)
  {
    if n > 0 {
      AuditedFillEvents(t, n - 1, clock);
      AuditedOne(FillEvents(t, n - 1, clock), Stamped(t.FillEvent(t.resp.fills[n - 1]), clock(|t.resp.fills| + 2 + n)));
    }
  }

  lemma AuditedTicket(t: Ticket, clock: Clock)
    ensures AuditedFills(Emitted(t, clock)) == FillsIn(t.venue, t.order.symbol, t.resp, |t.resp.fills|)
  {
    var n := |t.resp.fills|;
    var placed := [Stamped(t.PlacedEvent(), clock(n + 2))];
    AuditedConcat(placed, FillEvents(t, n, clock));
    AuditedNone(placed);
    AuditedFillEvents(t, n, clock);
    assert Emitted(t, clock) == placed + FillEvents(t, n, clock);
  }

  /** What an act adds to the log. */
  function LogOf(venue: string, parse: Parser, a: Act): seq<Event>
  {
    match a
    case Cancel(id, at) => [Stamped(OrderCanceled(venue, 0, id), at)]
    case Rotate(at) => [Stamped(CredentialRotation(venue, 0), at)]
    case Balances(assets, clock) => BalanceEvents(venue, assets, clock)
    case Place(_, _, clock) =>
      var t := TicketOf(venue, parse, a);
      if t.None? then [] else Emitted(t.value, clock)
  }

  lemma StepLogs(venue: string, parse: Parser, l: Ledger, a: Act)
    ensures Step(venue, parse, l, a).log == l.log + LogOf(venue, parse, a)
  {
  }

  lemma LogTellsReplies(venue: string, parse: Parser, a: Act)
    ensures AuditedFills(LogOf(venue, parse, a)) == RepliedBy(venue, parse, a)
  {
    if a.Place? {
      CheckExact(a.request, parse);
      var t := TicketOf(venue, parse, a);
      if t.Some? {
        AuditedTicket(t.value, a.clock);
      }
    } else {
      if a.Balances? {
        BalanceEventsTellNothing(venue, a.assets, a.clock);
      }
      AuditedNone(LogOf(venue, parse, a));
    }
  }

  lemma {:induction false} AuditedAreReplied(venue: string, parse: Parser, acts: seq<Act>)
    ensures AuditedFills(Run(venue, parse, acts).log) == RepliedFills(venue, parse, acts)
  {
    if acts != [] {
      var n := |acts| - 1;
      AuditedAreReplied(venue, parse, acts[..n]);
      StepLogs(venue, parse, Run(venue, parse, acts[..n]), acts[n]);
      LogTellsReplies(venue, parse, acts[n]);
      AuditedConcat(Run(venue, parse, acts[..n]).log, LogOf(venue, parse, acts[n]));
    }
  }

  lemma {:induction false} AddFillsFirst(fills: seq<S.Fill>, offered: seq<S.Fill>, t: Ticket, n: nat, clock: Clock)
    requires n <= |t.resp.fills| && S.StoredAll(fills, S.FirstOccurrences(offered))
    ensures S.StoredAll(AddFills(fills, t, n, clock),
                        S.FirstOccurrences(offered + FillsIn(t.venue, t.order.symbol, t.resp, n)))
  {
    var more := FillsIn(t.venue, t.order.symbol, t.resp, n);
    if n == 0 {
      assert offered + more == offered;
    } else {
      var before, f := FillsIn(t.venue, t.order.symbol, t.resp, n - 1), t.StoredFill(t.resp.fills[n - 1]);
      AddFillsFirst(fills, offered, t, n - 1, clock);
      S.AddFillFirst(AddFills(fills, t, n - 1, clock), offered + before, f, clock(n + 1));
      assert offered + more == (offered + before) + [f];
    }
  }

  lemma StepStoresReplies(venue: string, parse: Parser, l: Ledger, a: Act, offered: seq<S.Fill>)
    requires S.StoredAll(l.records.fills, S.FirstOccurrences(offered))
    ensures S.StoredAll(Step(venue, parse, l, a).records.fills,
                        S.FirstOccurrences(offered + RepliedBy(venue, parse, a)))
  {
    assert offered + [] == offered;
    if a.Place? {
      CheckExact(a.request, parse);
      var t := TicketOf(venue, parse, a);
      if t.Some? {
        AddFillsFirst(l.records.fills, offered, t.value, |t.value.resp.fills|, a.clock);
      }
    }
  }

  /** Over every run the stored fills are what the connector replied, each trade once, in order. */
  lemma {:induction false} StoredFillsAreReplied(venue: string, parse: Parser, acts: seq<Act>)
    ensures S.StoredAll(Run(venue, parse, acts).records.fills, S.FirstOccurrences(RepliedFills(venue, parse, acts)))
  {
    if acts != [] {
      var n := |acts| - 1;
      StoredFillsAreReplied(venue, parse, acts[..n]);
      StepStoresReplies(venue, parse, Run(venue, parse, acts[..n]), acts[n], RepliedFills(venue, parse, acts[..n]));
    }
  }

  /** So over every run, against any connector, the store's fills are those of the audit log. */
  lemma StoredFillsAreAudited(venue: string, parse: Parser, acts: seq<Act>)
    ensures FillsMatch(Run(venue, parse, acts).records.fills, Run(venue, parse, acts).log)
  {
    StoredFillsAreReplied(venue, parse, acts);
    AuditedAreReplied(venue, parse, acts);
  }
}
