/** The dummy connector: it fills every order at once, in full, at the asked price or its own. */
module DummyVenue {
  import opened Sequences

  datatype VenueFill = VenueFill(
    venueOrderId: string, tradeId: string, price: real, quantity: real, fee: real, feeAsset: string, timestamp: int)

  datatype OrderResponse = OrderResponse(
    venueOrderId: string, clientOrderId: string, status: string, filledQty: real, avgPrice: real, fills: seq<VenueFill>)

  datatype OrderRequest = OrderRequest(
    clientOrderId: string, symbol: string, side: string, orderType: string, quantity: real, price: real)

  /** Empty strings, zero times and a zero limit mean "no restriction". */
  datatype FillQuery = FillQuery(venueOrderId: string, start: int, end: int, limit: int)

  /** The identifiers drawn and the clock read while an order is placed. */
  datatype Draw = Draw(orderId: string, tradeId: string, now: int)

  datatype Dummy = Dummy(price: real, fills: seq<VenueFill>, orders: map<string, OrderResponse>)

  /** A tenth of a percent of the value. */
  function Fee(price: real, quantity: real): real
  {
    price * quantity * 0.001
  }

  /** The whole quantity in one fill, so the order's totals are those of its fills. */
  function Respond(d: Dummy, req: OrderRequest, draw: Draw): (r: OrderResponse)
    ensures r.clientOrderId == if req.clientOrderId == "" then draw.orderId else req.clientOrderId
    ensures r.status == "filled"
    ensures |r.fills| == 1 && r.fills[0].tradeId == draw.tradeId && r.fills[0].timestamp == draw.now
    ensures r.fills[0].quantity == r.filledQty == req.quantity
    ensures r.fills[0].price == r.avgPrice && r.avgPrice == (if req.price == 0.0 then d.price else req.price)
    ensures r.fills[0].venueOrderId == r.venueOrderId == r.clientOrderId
    ensures r.fills[0].fee * 1000.0 == r.avgPrice * r.filledQty
  {
    var id := if req.clientOrderId == "" then draw.orderId else req.clientOrderId;
    var price := if req.price == 0.0 then d.price else req.price;
    var fill := VenueFill(id, draw.tradeId, price, req.quantity, Fee(price, req.quantity), "USDT", draw.now);
    OrderResponse(id, id, "filled", req.quantity, price, [fill])
  }

  function Placed(d: Dummy, resp: OrderResponse): Dummy
  {
    Dummy(d.price, d.fills + resp.fills, d.orders[resp.clientOrderId := resp])
  }

  predicate Matches(q: FillQuery, f: VenueFill)
  {
    && (q.venueOrderId == "" || f.venueOrderId == q.venueOrderId)
    && (q.start == 0 || f.timestamp >= q.start)
    && (q.end == 0 || f.timestamp <= q.end)
  }

  function Selected(q: FillQuery, fills: seq<VenueFill>): seq<VenueFill>
  {
    if fills == [] then []
    else var n := |fills| - 1; Selected(q, fills[..n]) + if Matches(q, fills[n]) then [fills[n]] else []
  }

  /** A query finds every matching fill as often as it was made, and no other. */
  lemma {:induction false} SelectedExactly(q: FillQuery, fills: seq<VenueFill>, f: VenueFill)
    ensures multiset(Selected(q, fills))[f]
            == if && (q.venueOrderId == "" || f.venueOrderId == q.venueOrderId)
                  && (q.start == 0 || q.start <= f.timestamp) && (q.end == 0 || f.timestamp <= q.end)
               then multiset(fills)[f] else 0
  {
    if fills != [] {
      var n := |fills| - 1;
      SelectedExactly(q, fills[..n], f);
      assert fills == fills[..n] + [fills[n]];
    }
  }

  /** It finds them in the order in which they were made. */
  lemma {:induction false} SelectedConcat(q: FillQuery, a: seq<VenueFill>, b: seq<VenueFill>)
    ensures Selected(q, a + b) == Selected(q, a) + Selected(q, b)
  {
    if b == [] {
      assert a + b == a;
    } else {
      var f := b[|b| - 1];
      SelectedConcat(q, a, b[..|b| - 1]);
      LastOfConcat(a, b);
      Regroup(Selected(q, a), Selected(q, b[..|b| - 1]), if Matches(q, f) then [f] else []);
    }
  }

  class DummyVenueConnector {
    const price: real
    var fills: seq<VenueFill>
    var orders: map<string, OrderResponse>

    function State(): Dummy
      reads this
    {
      Dummy(price, fills, orders)
    }

    constructor (price: real)
      ensures State() == Dummy(price, [], map[])
    {
      this.price, fills, orders := price, [], map[];
    }

    method PlaceOrder(request: OrderRequest, draw: Draw) returns (resp: OrderResponse)
      modifies this`fills, this`orders
      ensures resp == Respond(old(State()), request, draw)
      ensures State() == Placed(old(State()), resp)
      ensures fills == old(fills) + resp.fills && orders == old(orders)[resp.clientOrderId := resp]
    {
      var req := request;
      if req.clientOrderId == "" {
        req := req.(clientOrderId := draw.orderId);
      }
      var p := req.price;
      if p == 0.0 {
        p := price;
      }
      var qty := req.quantity;
      var fill := VenueFill(req.clientOrderId, draw.tradeId, p, qty, Fee(p, qty), "USDT", draw.now);
      resp := OrderResponse(req.clientOrderId, req.clientOrderId, "filled", qty, p, [fill]);
      fills := fills + [fill];
      orders := orders[req.clientOrderId := resp];
    }

    method CancelOrder(venueOrderId: string, clientOrderId: string)
      modifies this`orders
      ensures var id := if venueOrderId == "" then clientOrderId else venueOrderId;
              orders == if id in old(orders) then old(orders)[id := old(orders)[id].(status := "canceled")]
                        else old(orders)
    {
      var id := venueOrderId;
      if id == "" {
        id := clientOrderId;
      }
      if id in orders {
        orders := orders[id := orders[id].(status := "canceled")];
      }
    }

    method GetFills(q: FillQuery) returns (out: seq<VenueFill>)
      ensures var all := Selected(q, fills);
              out == if 0 < q.limit < |all| then all[..q.limit] else all
    {
      out := [];
      for i := 0 to |fills|
        invariant out == Selected(q, fills[..i])
      {
        assert fills[..i + 1][..i] == fills[..i];
        var f := fills[i];
        if q.venueOrderId != "" && f.venueOrderId != q.venueOrderId {
          continue;
        }
        if q.start != 0 && f.timestamp < q.start {
          continue;
        }
        if q.end != 0 && f.timestamp > q.end {
          continue;
        }
        out := out + [f];
      }
      assert fills[..|fills|] == fills;
      if q.limit > 0 && |out| > q.limit {
        out := out[..q.limit];
      }
    }
  }
}
