/** The in-memory paper broker: immediate fills at a given price, idempotent by client order id. */
module PaperBrokers {
  import opened Prelude
  import opened Sums
  import opened Orders
  import opened Ledger
  import BrokerProtocol

  /** How the broker answers a request at the current price of its symbol. */
  datatype Response = NoPrice | Rests | FillsAt(price: real)

  function Respond(prices: map<string, real>, r: Request): Response {
    if r.symbol !in prices || prices[r.symbol] <= 0.0 then NoPrice
    else
      var price := prices[r.symbol];
      if r.orderType == Limit && r.limitPrice.Some? then
        var limit := r.limitPrice.value;
        if (r.side == Buy && price <= limit) || (r.side == Sell && price >= limit) then FillsAt(limit) else Rests
      else FillsAt(price)
  }

  function FillIds(fills: seq<Fill>): set<OrderId> {
    set i | 0 <= i < |fills| :: fills[i].id
  }

  lemma FillIdsOfAppend(fills: seq<Fill>, fill: Fill)
    ensures FillIds(fills + [fill]) == FillIds(fills) + {fill.id}
  {
    var all := fills + [fill];
    forall id | id in FillIds(fills) + {fill.id} ensures id in FillIds(all) {
      if id == fill.id {
        assert all[|fills|].id == id;
      } else {
        var i :| 0 <= i < |fills| && fills[i].id == id;
        assert all[i].id == id;
      }
    }
  }

  function Quantities(ps: Positions): map<string, real> {
    map s | s in ps :: ps[s].qty
  }

  /** A fill is a trade in the terms of the protocol exactly if no sliver of the position is dropped. */
  lemma FillTradesIff(cash: real, ps: Positions, fill: Fill, w: map<OrderId, BrokerProtocol.Working>,
                      w': map<OrderId, BrokerProtocol.Working>, k: set<OrderId>, k': set<OrderId>)
    ensures
      BrokerProtocol.Trades(
        BrokerProtocol.View(cash, Quantities(ps), w, k), fill.symbol, fill.signed, fill.price,
        BrokerProtocol.View(cash - Times(fill.signed, fill.price), Quantities(ApplyFill(ps, fill)), w', k'))
      <==> Dropped(Lookup(ps, fill.symbol), fill) == 0.0
  {
    var v := BrokerProtocol.View(cash, Quantities(ps), w, k);
    var v' := BrokerProtocol.View(cash - Times(fill.signed, fill.price), Quantities(ApplyFill(ps, fill)), w', k');
    assert v'.Held(fill.symbol) == v.Held(fill.symbol) + fill.signed - Dropped(Lookup(ps, fill.symbol), fill);
  }

  /** An order that fills whole is answered as the protocol describes exactly if that is a trade at a positive price. */
  lemma WholeFillStepsIff(v: BrokerProtocol.View, r: Request, price: real, v': BrokerProtocol.View)
    requires r.id !in v.known && 0.0 <= r.qty && v'.working == v.working && v'.known == v.known + {r.id}
    ensures BrokerProtocol.SubmitStep(v, r, BrokerProtocol.Accepted(r.qty, price), v')
      <==> 0.0 < price && BrokerProtocol.Trades(v, r.symbol, Signed(r.side, r.qty), price, v')
  {
  }

  class PaperBroker {
    var prices: map<string, real>
    var cash: real
    var positions: Positions
    var orders: map<OrderId, Order>
    ghost const startingCash: real
    ghost var fills: seq<Fill>  // every fill so far, oldest first

    /** Cash and positions are what average-cost bookkeeping makes of the fills. */
    ghost predicate Booked()
      reads this
    {
      cash == CashAfter(startingCash, fills) && positions == PositionsAfter(fills)
    }

    /** The fill records the whole of this filled order. */
    static ghost predicate FillOf(o: Order, fill: Fill)
      reads o
    {
      && o.status == Filled
      && fill == Fill(o.request.id, o.request.symbol, Signed(o.request.side, o.request.qty), fill.price)
      && o.filledAvgPrice == Some(fill.price)
      && o.filledQty == o.request.qty
    }

    /** These fills are exactly the filled orders, each counted once. */
    ghost predicate FillsAreOrders(fs: seq<Fill>)
      reads this`orders, orders.Values
    {
      && (forall i, j :: 0 <= i < j < |fs| ==> fs[i].id != fs[j].id)
      && (forall i :: 0 <= i < |fs| ==> fs[i].id in orders && FillOf(orders[fs[i].id], fs[i]))
      && (forall id :: id in orders && orders[id].status == Filled ==> id in FillIds(fs))
    }

    ghost predicate Valid()
      reads this, orders.Values
    {
      && Booked()
      && FillsAreOrders(fills)
      && (forall id :: id in orders ==> orders[id].request.id == id)
    }

    /**
     * A new order without a positive price is rejected. At a price, one without a limit fills at the market; one with a
     * limit fills at its limit exactly if the market is there or better, and rests otherwise.
     */
    static ghost predicate MeetsMarket(order: Order, prices: map<string, real>)
      reads order
    {
      var r := order.request;
      if r.symbol !in prices || prices[r.symbol] <= 0.0 then order.status == Rejected
      else if r.orderType == Market || r.limitPrice == None then
        order.status == Filled && order.filledAvgPrice == Some(prices[r.symbol])
      else
        var market, limit := prices[r.symbol], r.limitPrice.value;
        && (r.side == Buy ==> order.status == if market > limit then Accepted else Filled)
        && (r.side == Sell ==> order.status == if market < limit then Accepted else Filled)
        && (order.status == Filled ==> order.filledAvgPrice == Some(limit))
    }

    constructor (prices: map<string, real>, startingCash: real)
      ensures Valid() && fills == [] && orders == map[] && this.prices == prices && this.startingCash == startingCash
    {
      this.prices := prices;
      this.startingCash := startingCash;
      cash, positions, orders, fills := startingCash, map[], map[], [];
    }

    method SetPrice(symbol: string, price: real)
      requires Valid()
      modifies this`prices
      ensures Valid() && prices == old(prices)[symbol := price]
    {
      prices := prices[symbol := price];
    }

    method SubmitOrder(order: Order) returns (result: Order)
      requires Valid()
      modifies this, order
      ensures Valid() && prices == old(prices)
      // A known identifier is answered from memory and changes nothing.
      ensures old(order.request.id in orders) ==>
        && result == old(orders)[order.request.id]
        && cash == old(cash) && positions == old(positions) && orders == old(orders) && fills == old(fills)
        && unchanged(order)
      // A new one is recorded, and fills the whole quantity or nothing.
      ensures old(order.request.id !in orders) ==>
        && result == order
        && orders == old(orders)[order.request.id := order]
        && match Respond(prices, order.request)
           case NoPrice => order.status == Rejected && order.filledQty == old(order.filledQty) && fills == old(fills)
           case Rests => order.status == Accepted && order.filledQty == old(order.filledQty) && fills == old(fills)
           case FillsAt(price) =>
             && order.status == Filled
             && fills == old(fills) +
                  [Fill(order.request.id, order.request.symbol, Signed(order.request.side, order.request.qty), price)]
      ensures old(order.request.id !in orders) ==> MeetsMarket(order, prices)
      // A fill is of the whole quantity and moves cash by its price; nothing else does.
      ensures old(order.request.id !in orders) ==>
        if order.status == Filled then
          && order.filledQty == order.request.qty
          && cash == old(cash) - Times(if order.request.side == Buy then order.request.qty else -order.request.qty,
                                       order.filledAvgPrice.value)
        else cash == old(cash) && positions == old(positions)
    {
      if order.request.id in orders {
        return orders[order.request.id];
      }
      match Respond(prices, order.request) {
        case NoPrice => RecordUnfilled(order, Rejected, Some("no market price"));
        case Rests => RecordUnfilled(order, Accepted, order.reason);
        case FillsAt(price) => FillWholeOrder(order, price);
      }
      result := order;
    }

    method RecordUnfilled(order: Order, status: Status, reason: Option<string>)
      requires Valid() && order.request.id !in orders && status != Filled
      modifies this`orders, order
      ensures Valid()
      ensures orders == old(orders)[order.request.id := order]
      ensures order.status == status && order.filledQty == old(order.filledQty)
    {
      assert order !in orders.Values;
      order.status := status;
      order.reason := reason;
      orders := orders[order.request.id := order];
    }

    method FillWholeOrder(order: Order, price: real)
      requires Valid() && order.request.id !in orders
      modifies this`cash, this`positions, this`orders, this`fills, order
      ensures Valid()
      ensures orders == old(orders)[order.request.id := order]
      ensures order.status == Filled && order.filledQty == order.request.qty && order.filledAvgPrice == Some(price)
      ensures cash == old(cash) - Times(Signed(order.request.side, order.request.qty), price)
      ensures fills == old(fills) +
        [Fill(order.request.id, order.request.symbol, Signed(order.request.side, order.request.qty), price)]
    {
      var r := order.request;
      ghost var fill := Fill(r.id, r.symbol, Signed(r.side, r.qty), price);
      assert order !in orders.Values;
      BookFill(r.symbol, Signed(r.side, r.qty), price, fill);
      RecordFilled(order, price, old(fills), fill);
    }

    method RecordFilled(order: Order, price: real, ghost before: seq<Fill>, ghost fill: Fill)
      requires FillsAreOrders(before) && order.request.id !in orders && order !in orders.Values
      requires forall id :: id in orders ==> orders[id].request.id == id
      requires
        fill == Fill(order.request.id, order.request.symbol, Signed(order.request.side, order.request.qty), price)
      modifies this`orders, order
      ensures FillsAreOrders(before + [fill])
      ensures forall id :: id in orders ==> orders[id].request.id == id
      ensures orders == old(orders)[order.request.id := order]
      ensures order.status == Filled && order.filledQty == order.request.qty && order.filledAvgPrice == Some(price)
    {
      order.MarkFilled(price);
      orders := orders[order.request.id := order];
      FillIdsOfAppend(before, fill);
    }

    /** Moves positions and cash by one fill. */
    method BookFill(symbol: string, signedQty: real, price: real, ghost fill: Fill)
      requires Booked()
      requires fill.symbol == symbol && fill.signed == signedQty && fill.price == price
      modifies this`cash, this`positions, this`fills
      ensures Booked()
      ensures fills == old(fills) + [fill] && cash == old(cash) - Times(signedQty, price)
    {
      ApplyFillToBook(symbol, signedQty, price, fill);
      cash := cash - Times(signedQty, price);
      fills := fills + [fill];
      assert fills[..|fills| - 1] == old(fills);
    }

    /** Opens, averages up, reduces, flips or deletes the position of a symbol. */
    method ApplyFillToBook(symbol: string, signedQty: real, price: real, ghost fill: Fill)
      requires fill.symbol == symbol && fill.signed == signedQty && fill.price == price
      modifies this`positions
      ensures positions == ApplyFill(old(positions), fill)
    {
      if symbol !in positions {
        positions := positions[symbol := Position(symbol, signedQty, price)];
        return;
      }
      var pos := positions[symbol];
      var newQty := pos.qty + signedQty;
      if Abs(newQty) < FLAT {
        positions := positions - {symbol};
      } else if (pos.qty > 0.0) == (signedQty > 0.0) {
        var avg := (Times(pos.avgPrice, pos.qty) + Times(price, signedQty)) / newQty;
        positions := positions[symbol := Position(symbol, newQty, avg)];
      } else {
        var avg := if (newQty > 0.0) != (pos.qty > 0.0) then price else pos.avgPrice;
        positions := positions[symbol := Position(symbol, newQty, avg)];
      }
    }

    /** Cancels a working order; filled and terminal ones are left alone. */
    method CancelOrder(id: OrderId)
      requires Valid()
      modifies if id in orders then {orders[id]} else {}
      ensures Valid()
      ensures id in orders ==>
        orders[id].status == if old(orders[id].status).Cancellable() then Cancelled else old(orders[id].status)
      ensures id in orders ==>
        orders[id].status == if old(orders[id].status) in {New, Submitted, Accepted} then Cancelled
                             else old(orders[id].status)
    {
      if id in orders && orders[id].status.Cancellable() {
        var order := orders[id];
        order.status := Cancelled;
      }
    }

    /**
     * The orders still working: those execution counts as pending, none of which has filled, and no other but
     * dead ones.
     */
    method GetOpenOrders() returns (open: set<Order>)
      requires Valid()
      ensures forall o :: o in open ==> o.request.id in orders && orders[o.request.id] == o
      ensures (set o | o in open :: o.request.id) == View().working.Keys
      ensures forall o :: o in open ==> o.request.id !in FillIds(fills)
      ensures forall id :: id in orders && orders[id] !in open && id !in FillIds(fills) ==> orders[id].status.Dead()
      ensures forall id :: id in orders ==>
        (orders[id] in open <==> orders[id].status in {New, Submitted, Accepted, PartiallyFilled})
    {
      open := set id | id in orders && orders[id].status.Open() :: orders[id];
    }

    /** Equity is cash plus holdings at the market; the gain since the start is fully explained by the fills. */
    method GetAccount() returns (account: Account)
      requires Valid()
      ensures account.cash == cash && account.buyingPower == Max(cash, 0.0)
      ensures account.equity == cash + MarketValue(positions, prices)
      // A holding is marked at the last price of its symbol, or at its average cost if there is none.
      ensures account.equity == cash + Total(map s | s in positions ::
        Times(positions[s].qty, if s in prices then prices[s] else positions[s].avgPrice))
      ensures account.equity - startingCash ==
        Realised(fills) + Unrealised(positions, prices) - DroppedValue(fills)
      ensures (forall i :: 0 <= i < |fills| ==> Whole(fills[i].signed)) ==>
        account.equity - startingCash == Realised(fills) + Unrealised(positions, prices)
    {
      var value := SumValues(MarketValues(positions, prices));
      HoldingsAreMarked(fills, prices);
      AccountingIdentity(startingCash, fills, prices);
      if forall i :: 0 <= i < |fills| ==> Whole(fills[i].signed) {
        WholeSharesDropNothing(fills, "");
      }
      account := Account(cash + value, cash, Max(cash, 0.0), 0.0);
    }

    // ----------------------------------------- the paper broker is a broker

    ghost function View(): BrokerProtocol.View
      reads this, orders.Values
    {
      BrokerProtocol.View(
        cash,
        Quantities(positions),
        map id | id in orders && orders[id].status.Open() ::
          BrokerProtocol.Working(
            orders[id].request.symbol, orders[id].request.side, orders[id].request.qty, orders[id].filledQty),
        orders.Keys)
    }

    /** The sliver that trading the request's quantity would leave, to be dropped. */
    ghost function SliverOf(r: Request): real
      reads this
    {
      Dropped(Lookup(positions, r.symbol), Fill(r.id, r.symbol, Signed(r.side, r.qty), 0.0))
    }

    ghost predicate LeavesNoSliver(r: Request)
      reads this
    {
      SliverOf(r) == 0.0
    }

    /** What an order's answer is, in the terms of the protocol. */
    ghost function OutcomeOf(r: Request): BrokerProtocol.Outcome
      reads this
    {
      if r.id in orders then BrokerProtocol.Duplicate
      else match Respond(prices, r)
        case NoPrice => BrokerProtocol.Refused(false)
        case Rests => BrokerProtocol.Accepted(0.0, prices[r.symbol])
        case FillsAt(price) => BrokerProtocol.Accepted(r.qty, price)
    }

    /** If it fills, the order does so at a positive price and leaves no sliver. */
    ghost predicate FillsCleanly(r: Request)
      reads this
    {
      OutcomeOf(r).Accepted? && Respond(prices, r).FillsAt? ==> OutcomeOf(r).price > 0.0 && LeavesNoSliver(r)
    }

    /** What SubmitOrder does with a new order. */
    twostate predicate Recorded(order: Order)
      reads this, order
    {
      var r := order.request;
      && orders == old(orders)[r.id := order]
      && match old(Respond(prices, r))
         case NoPrice => order.status == Rejected && fills == old(fills)
         case Rests => order.status == Accepted && order.filledQty == 0.0 && fills == old(fills)
         case FillsAt(price) =>
           order.status == Filled && fills == old(fills) + [Fill(r.id, r.symbol, Signed(r.side, r.qty), price)]
    }

    /** Recording a new order is a step the protocol allows, exactly if it fills cleanly when it fills. */
    twostate lemma RecordingIsAllowedIff(order: Order)
      requires old(Valid()) && Booked() && 0.0 < order.request.qty
      requires order.request.id !in old(orders) && Recorded(order)
      requires forall id :: id in old(orders) ==> unchanged(old(orders)[id])
      ensures BrokerProtocol.SubmitStep(old(View()), order.request, old(OutcomeOf(order.request)), View())
        <==> old(FillsCleanly(order.request))
    {
      WorkingIs(order);
      if order.status == Filled {
        FillingIsAllowedIff(order);
      }
    }

    twostate lemma FillingIsAllowedIff(order: Order)
      requires old(Valid()) && Booked() && 0.0 < order.request.qty
      requires order.request.id !in old(orders) && Recorded(order) && order.status == Filled
      requires View().working == old(View().working)
      ensures BrokerProtocol.SubmitStep(old(View()), order.request, old(OutcomeOf(order.request)), View())
        <==> old(FillsCleanly(order.request))
    {
      var r, fill := order.request, fills[|fills| - 1];
      assert fills[..|fills| - 1] == old(fills);
      FillTradesIff(old(cash), old(positions), fill, old(View().working), View().working,
                    old(View().known), View().known);
      WholeFillStepsIff(old(View()), r, fill.price, View());
      assert old(OutcomeOf(r)) == BrokerProtocol.Accepted(r.qty, fill.price);
      assert old(SliverOf(r)) == Dropped(Lookup(old(positions), r.symbol), fill);
    }

    twostate lemma WorkingIs(order: Order)
      requires order.request.id !in old(orders) && orders == old(orders)[order.request.id := order]
      requires forall id :: id in old(orders) ==> unchanged(old(orders)[id])
      ensures View().working == if order.status.Open()
        then old(View().working)[order.request.id := BrokerProtocol.Working(
          order.request.symbol, order.request.side, order.request.qty, order.filledQty)]
        else old(View().working)
    {
    }

    /**
     * Submission as execution sees it: a market or limit order, resting or filling, is answered as the protocol
     * describes, exactly if it fills cleanly when it fills.
     */
    method Submit(order: Order) returns (result: Order)
      requires Valid() && 0.0 < order.request.qty
      requires order.request.id in orders || order.filledQty == 0.0
      modifies this, order
      ensures Valid()
      ensures BrokerProtocol.SubmitStep(old(View()), order.request, old(OutcomeOf(order.request)), View())
        <==> old(FillsCleanly(order.request))
      ensures old(order.request.id !in orders) ==> MeetsMarket(order, old(prices))
    {
      assert order.request.id in orders || order !in orders.Values;
      result := SubmitOrder(order);
      if order.request.id !in old(orders) {
        RecordingIsAllowedIff(order);
      } else {
        assert View().working == old(View()).working;
      }
    }
  }
}
