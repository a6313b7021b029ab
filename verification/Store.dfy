/**
 The in-memory order and fill store: orders once per client order id, fills once per (venue, trade id).
 The time 0 stands for "not set".
 */
module Store {
  import opened Wrappers

  datatype Order = Order(
    venueOrderId: string, clientOrderId: string, venue: string, pair: string, side: string, orderType: string,
    status: string, filledQty: real, avgPrice: real, quantity: real, price: real, createdAt: int, updatedAt: int)

  datatype Fill = Fill(
    venueOrderId: string, tradeId: string, venue: string, pair: string, price: real, quantity: real,
    fee: real, feeAsset: string, timestamp: int)

  datatype Records = Records(orders: map<string, Order>, fills: seq<Fill>)

  const EMPTY := Records(map[], [])

  predicate SameTrade(f: Fill, g: Fill)
  {
    f.venue == g.venue && f.tradeId == g.tradeId
  }

  predicate HasTrade(fills: seq<Fill>, f: Fill)
  {
    exists i :: 0 <= i < |fills| && SameTrade(fills[i], f)
  }

  function Stamped(f: Fill, now: int): Fill
  {
    if f.timestamp == 0 then f.(timestamp := now) else f
  }

  function AddOrder(orders: map<string, Order>, o: Order, now: int, later: int): map<string, Order>
  {
    if o.clientOrderId in orders then orders
    else orders[o.clientOrderId := o.(createdAt := if o.createdAt == 0 then now else o.createdAt, updatedAt := later)]
  }

  function AddFill(fills: seq<Fill>, f: Fill, now: int): seq<Fill>
  {
    if HasTrade(fills, f) then fills else fills + [Stamped(f, now)]
  }

  function FillsOf(fills: seq<Fill>, id: string): seq<Fill>
  {
    if fills == [] then []
    else
      var n := |fills| - 1;
      FillsOf(fills[..n], id) + if fills[n].venueOrderId == id then [fills[n]] else []
  }

  class MemStore {
    var orders: map<string, Order>
    var fills: seq<Fill>

    function State(): Records
      reads this
    {
      Records(orders, fills)
    }

    constructor ()
      ensures State() == EMPTY
    {
      orders, fills := map[], [];
    }

    method RecordOrder(o: Order, now: int, later: int) returns (recorded: bool)
      modifies this`orders
      ensures recorded <==> o.clientOrderId !in old(orders)
      ensures orders == AddOrder(old(orders), o, now, later)
      ensures !recorded ==> orders == old(orders)
      ensures recorded ==>
                orders == old(orders)[o.clientOrderId :=
                            o.(createdAt := if o.createdAt == 0 then now else o.createdAt, updatedAt := later)]
    {
      if o.clientOrderId in orders {
        return false;
      }
      var stored := o;
      if stored.createdAt == 0 {
        stored := stored.(createdAt := now);
      }
      stored := stored.(updatedAt := later);
      orders := orders[stored.clientOrderId := stored];
      return true;
    }

    method GetOrderByClientID(id: string) returns (o: Option<Order>)
      ensures o == if id in orders then Some(orders[id]) else None
    {
      o := if id in orders then Some(orders[id]) else None;
    }

    method RecordFill(f: Fill, now: int) returns (recorded: bool)
      modifies this`fills
      ensures recorded <==> forall g :: g in old(fills) ==> g.venue != f.venue || g.tradeId != f.tradeId
      ensures fills == AddFill(old(fills), f, now)
      ensures !recorded ==> fills == old(fills)
      ensures recorded ==> fills == old(fills) + [f.(timestamp := if f.timestamp == 0 then now else f.timestamp)]
    {
      for i := 0 to |fills|
        invariant fills == old(fills)
        invariant forall j :: 0 <= j < i ==> !SameTrade(fills[j], f)
      {
        if fills[i].venue == f.venue && fills[i].tradeId == f.tradeId {
          assert SameTrade(fills[i], f);
          return false;
        }
      }
      var stored := f;
      if stored.timestamp == 0 {
        stored := stored.(timestamp := now);
      }
      fills := fills + [stored];
      return true;
    }

    method FillsForOrder(id: string) returns (out: seq<Fill>)
      ensures out == FillsOf(fills, id)
    {
      out := [];
      for i := 0 to |fills|
        invariant out == FillsOf(fills[..i], id)
      {
        assert fills[..i + 1][..i] == fills[..i];
        if fills[i].venueOrderId == id {
          out := out + [fills[i]];
        }
      }
      assert fills[..|fills|] == fills;
    }
  }

  // ---- What repeated recording amounts to ----

  /** Of several fills of one trade, the first. */
  function FirstOccurrences(fs: seq<Fill>): seq<Fill>
  {
    if fs == [] then []
    else
      var n := |fs| - 1;
      FirstOccurrences(fs[..n]) + if HasTrade(fs[..n], fs[n]) then [] else [fs[n]]
  }

  lemma {:induction false} FirstOccurrencesTrades(fs: seq<Fill>, f: Fill)
    ensures HasTrade(FirstOccurrences(fs), f) <==> HasTrade(fs, f)
  {
    if fs != [] {
      var n := |fs| - 1;
      var before, now := FirstOccurrences(fs[..n]), FirstOccurrences(fs);
      FirstOccurrencesTrades(fs[..n], f);
      FirstOccurrencesTrades(fs[..n], fs[n]);
      HasTradeAppend(before, fs[n], f);
      HasTradeAppend(fs[..n], fs[n], f);
      assert fs == fs[..n] + [fs[n]];
      if HasTrade(fs[..n], fs[n]) {
        assert now == before;
        if SameTrade(fs[n], f) {
          var i :| 0 <= i < n && SameTrade(fs[..n][i], fs[n]);
          assert SameTrade(fs[..n][i], f);
        }
      }
    }
  }

  lemma HasTradeAppend(fs: seq<Fill>, g: Fill, f: Fill)
    ensures HasTrade(fs + [g], f) <==> HasTrade(fs, f) || SameTrade(g, f)
  {
    if HasTrade(fs, f) {
      var i :| 0 <= i < |fs| && SameTrade(fs[i], f);
      assert SameTrade((fs + [g])[i], f);
    }
    if SameTrade(g, f) {
      assert SameTrade((fs + [g])[|fs|], f);
    }
  }

  /** Nothing is left out exactly when no trade comes twice. */
  lemma {:induction false} FirstOccurrencesAll(fs: seq<Fill>)
    ensures |FirstOccurrences(fs)| <= |fs|
    ensures NoTradeTwice(fs) ==> FirstOccurrences(fs) == fs
    ensures !NoTradeTwice(fs) ==> |FirstOccurrences(fs)| < |fs|
  {
    if fs != [] {
      var n := |fs| - 1;
      FirstOccurrencesAll(fs[..n]);
      NoTradeTwiceAtEnd(fs);
    }
  }

  lemma NoTradeTwiceAtEnd(fs: seq<Fill>)
    requires fs != []
    ensures NoTradeTwice(fs) <==> NoTradeTwice(fs[..|fs| - 1]) && !HasTrade(fs[..|fs| - 1], fs[|fs| - 1])
    ensures fs == fs[..|fs| - 1] + [fs[|fs| - 1]]
  {
    var n := |fs| - 1;
    assert fs == fs[..n] + [fs[n]];
    NoTradeTwiceAppend(fs[..n], fs[n]);
  }

  lemma NoTradeTwiceAppend(fs: seq<Fill>, f: Fill)
    ensures NoTradeTwice(fs + [f]) <==> NoTradeTwice(fs) && !HasTrade(fs, f)
  {
    var more := fs + [f];
    if NoTradeTwice(more) {
      forall i, j | 0 <= i < j < |fs|
        ensures !SameTrade(fs[i], fs[j])
      {
        assert !SameTrade(more[i], more[j]);
      }
      forall i | 0 <= i < |fs|
        ensures !SameTrade(fs[i], f)
      {
        assert !SameTrade(more[i], more[|fs|]);
      }
    }
  }

  /** `f` is what the store keeps of `g`: the same, with a time if `g` had none. */
  predicate StoredAs(f: Fill, g: Fill)
  {
    f == g || (g.timestamp == 0 && f == g.(timestamp := f.timestamp))
  }

  predicate StoredAll(fs: seq<Fill>, gs: seq<Fill>)
  {
    |fs| == |gs| && forall i :: 0 <= i < |fs| ==> StoredAs(fs[i], gs[i])
  }

  lemma StoredAllTrades(fs: seq<Fill>, gs: seq<Fill>, f: Fill)
    requires StoredAll(fs, gs)
    ensures HasTrade(fs, f) <==> HasTrade(gs, f)
  {
    if HasTrade(fs, f) {
      var i :| 0 <= i < |fs| && SameTrade(fs[i], f);
      assert SameTrade(gs[i], f);
    }
    if HasTrade(gs, f) {
      var i :| 0 <= i < |gs| && SameTrade(gs[i], f);
      assert SameTrade(fs[i], f);
    }
  }

  /** Recording one more fill keeps the store the first-occurrence list of all fills offered to it. */
  lemma AddFillFirst(fills: seq<Fill>, offered: seq<Fill>, f: Fill, now: int)
    requires StoredAll(fills, FirstOccurrences(offered))
    ensures StoredAll(AddFill(fills, f, now), FirstOccurrences(offered + [f]))
  {
    assert (offered + [f])[..|offered|] == offered;
    StoredAllTrades(fills, FirstOccurrences(offered), f);
    FirstOccurrencesTrades(offered, f);
  }

  // ---- Replays ----

  datatype Call = PutOrder(order: Order, now: int, later: int) | PutFill(fill: Fill, at: int)

  function Apply(r: Records, c: Call): Records
  {
    match c
    case PutOrder(o, now, later) => r.(orders := AddOrder(r.orders, o, now, later))
    case PutFill(f, at) => r.(fills := AddFill(r.fills, f, at))
  }

  /** The call finds its key already recorded and returns false. */
  predicate Known(r: Records, c: Call)
  {
    match c
    case PutOrder(o, _, _) => o.clientOrderId in r.orders
    case PutFill(f, _) => HasTrade(r.fills, f)
  }

  function ApplyAll(r: Records, cs: seq<Call>): Records
  {
    if cs == [] then r else Apply(ApplyAll(r, cs[..|cs| - 1]), cs[|cs| - 1])
  }

  predicate SameKey(c: Call, d: Call)
  {
    match c
    case PutOrder(o, _, _) => d.PutOrder? && d.order.clientOrderId == o.clientOrderId
    case PutFill(f, _) => d.PutFill? && SameTrade(d.fill, f)
  }

  predicate Applied(cs: seq<Call>, d: Call)
  {
    exists i :: 0 <= i < |cs| && SameKey(cs[i], d)
  }

  predicate NoTradeTwice(fills: seq<Fill>)
  {
    forall i, j :: 0 <= i < j < |fills| ==> !SameTrade(fills[i], fills[j])
  }

  lemma ApplyKnows(r: Records, c: Call, d: Call)
    ensures SameKey(c, d) ==> Known(Apply(r, c), d)
    ensures Known(r, d) ==> Known(Apply(r, c), d)
    ensures Known(r, c) ==> Apply(r, c) == r
    ensures NoTradeTwice(r.fills) ==> NoTradeTwice(Apply(r, c).fills)
  {
    if c.PutFill? && d.PutFill? {
      HasTradeAppend(r.fills, Stamped(c.fill, c.at), d.fill);
      if HasTrade(r.fills, c.fill) && SameKey(c, d) {
        var i :| 0 <= i < |r.fills| && SameTrade(r.fills[i], c.fill);
        assert SameTrade(r.fills[i], d.fill);
      }
    }
    if c.PutFill? && NoTradeTwice(r.fills) && !HasTrade(r.fills, c.fill) {
      forall i | 0 <= i < |r.fills|
        ensures !SameTrade(r.fills[i], c.fill)
      {
      }
    }
  }

  lemma {:induction false} AppliedIsKnown(r: Records, cs: seq<Call>, d: Call)
    requires Applied(cs, d)
    ensures Known(ApplyAll(r, cs), d)
  {
    var n := |cs| - 1;
    ApplyKnows(ApplyAll(r, cs[..n]), cs[n], d);
    if !SameKey(cs[n], d) {
      var i :| 0 <= i < |cs| && SameKey(cs[i], d);
      assert SameKey(cs[..n][i], d);
      AppliedIsKnown(r, cs[..n], d);
    }
  }

  /**
   Applying again any calls whose keys were applied before, in any order, number and with any contents and
   times, changes nothing.
   */
  lemma {:induction false} ReplayChangesNothing(r: Records, cs: seq<Call>, again: seq<Call>)
    requires forall d :: d in again ==> Applied(cs, d)
    ensures ApplyAll(ApplyAll(r, cs), again) == ApplyAll(r, cs)
  {
    if again != [] {
      var n := |again| - 1;
      ReplayChangesNothing(r, cs, again[..n]);
      AppliedIsKnown(r, cs, again[n]);
      ApplyKnows(ApplyAll(r, cs), again[n], again[n]);
    }
  }

  /** And each of them returns false. */
  lemma ReplayReturnsFalse(r: Records, cs: seq<Call>, again: seq<Call>, k: nat)
    requires k < |again| && forall d :: d in again ==> Applied(cs, d)
    ensures Known(ApplyAll(ApplyAll(r, cs), again[..k]), again[k])
  {
    ReplayChangesNothing(r, cs, again[..k]);
    AppliedIsKnown(r, cs, again[k]);
  }

  /** Over every run no two stored fills have both venue and trade id in common. */
  lemma {:induction false} TradesAreUnique(cs: seq<Call>)
    ensures var fills := ApplyAll(EMPTY, cs).fills;
            && NoTradeTwice(fills)
            && forall i, j :: 0 <= i < j < |fills| ==>
                 fills[i].venue != fills[j].venue || fills[i].tradeId != fills[j].tradeId
  {
    if cs != [] {
      var n := |cs| - 1;
      TradesAreUnique(cs[..n]);
      ApplyKnows(ApplyAll(EMPTY, cs[..n]), cs[n], cs[n]);
    }
  }

  // ---- Fills by order ----

  /** Each fill is found under its own order id, as often as it is stored, and under no other. */
  lemma {:induction false} FillsArePartitioned(fills: seq<Fill>, id: string, f: Fill)
    ensures multiset(FillsOf(fills, id))[f] == if f.venueOrderId == id then multiset(fills)[f] else 0
  {
    if fills != [] {
      var n := |fills| - 1;
      FillsArePartitioned(fills[..n], id, f);
      assert fills == fills[..n] + [fills[n]];
    }
  }

  /** And in the order in which they were recorded: positions in the store increase along the answer. */
  lemma {:induction false} FillsKeepOrder(fills: seq<Fill>, id: string) returns (at: seq<nat>)
    ensures |at| == |FillsOf(fills, id)|
    ensures forall k :: 0 <= k < |at| ==> at[k] < |fills| && fills[at[k]] == FillsOf(fills, id)[k]
    ensures forall j, k :: 0 <= j < k < |at| ==> at[j] < at[k]
  {
    if fills == [] {
      at := [];
    } else {
      var n := |fills| - 1;
      at := FillsKeepOrder(fills[..n], id);
      if fills[n].venueOrderId == id {
        at := at + [n];
      }
    }
  }
}
