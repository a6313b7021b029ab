/** Audit events and the append-only in-memory log. The time 0 stands for "not set". */
module Audit {

  datatype FillDetail = FillDetail(tradeId: string, price: real, quantity: real, fee: real, feeAsset: string, ts: int)

  datatype BalanceDetail = BalanceDetail(asset: string, free: real, locked: real)

  datatype Event =
    | OrderPlaced(venue: string, timestamp: int, orderId: string, clientId: string, pair: string, side: string,
                  orderType: string, quantity: real, price: real)
    | FillReceived(venue: string, timestamp: int, orderId: string, pair: string, fill: FillDetail)
    | OrderCanceled(venue: string, timestamp: int, orderId: string)
    | BalanceSnapshot(venue: string, timestamp: int, balance: BalanceDetail)
    | CredentialRotation(venue: string, timestamp: int)

  function Stamped(e: Event, now: int): Event
  {
    if e.timestamp == 0 then e.(timestamp := now) else e
  }

  class InMemorySink {
    var events: seq<Event>

    constructor ()
      ensures events == []
    {
      events := [];
    }

    method Emit(e: Event, now: int)
      modifies this
      ensures events == old(events) + [e.(timestamp := if e.timestamp == 0 then now else e.timestamp)]
      ensures events == old(events) + [Stamped(e, now)]
    {
      var stamped := e;
      if stamped.timestamp == 0 {
        stamped := stamped.(timestamp := now);
      }
      events := events + [stamped];
    }
  }
}
