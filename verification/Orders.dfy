/** Orders and positions as every broker sees them. */
module Orders {
  import opened Prelude

  /** Identifiers are generated by the client: one per symbol and second, so that submission is idempotent. */
  datatype OrderId =
    | Rebalance(second: int, symbol: string)
    | Flatten(second: int, symbol: string)
    | External(text: string)

  datatype Side = Buy | Sell

  datatype OrderType = Market | Limit

  datatype Status = New | Submitted | Accepted | PartiallyFilled | Filled | Rejected | Cancelled | Expired {
    predicate Open() {
      New? || Submitted? || Accepted? || PartiallyFilled?
    }

    /** Nothing more will become of it, and it is not filled. */
    predicate Dead() {
      Rejected? || Cancelled? || Expired?
    }

    predicate Cancellable() {
      New? || Submitted? || Accepted?
    }
  }

  /** What the client asks for; a broker never changes it. */
  datatype Request = Request(
    id: OrderId, symbol: string, side: Side, qty: real, orderType: OrderType, limitPrice: Option<real>)

  function Signed(side: Side, qty: real): real {
    if side == Buy then qty else -qty
  }

  /** A request together with what became of it, updated in place by the broker. */
  class Order {
    const request: Request
    var status: Status
    var filledQty: real
    var filledAvgPrice: Option<real>
    var reason: Option<string>

    constructor (request: Request)
      ensures this.request == request
      ensures status == New && filledQty == 0.0 && filledAvgPrice == None && reason == None
    {
      this.request := request;
      status, filledQty, filledAvgPrice, reason := New, 0.0, None, None;
    }

    method MarkFilled(price: real)
      modifies this
      ensures status == Filled && filledQty == request.qty && filledAvgPrice == Some(price) && reason == old(reason)
    {
      status := Filled;
      filledQty := request.qty;
      filledAvgPrice := Some(price);
    }
  }

  datatype Position = Position(symbol: string, qty: real, avgPrice: real)

  datatype Account = Account(equity: real, cash: real, buyingPower: real, lastEquity: real)
}
