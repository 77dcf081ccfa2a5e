/**
 * What execution may rely on from any broker: an accepted order fills now, in part, or
 * rests; a working order may fill later; nothing else moves cash or holdings.
 */
module BrokerProtocol {
  import opened Prelude
  import opened Sums
  import opened Orders

  /** An order still working: part of it has filled, the rest is pending. */
  datatype Working = Working(symbol: string, side: Side, qty: real, filled: real) {
    predicate Valid() {
      0.0 <= filled < qty
    }

    function Pending(): real {
      Signed(side, qty - filled)
    }
  }

  /** The observable state of an account at a broker. */
  datatype View = View(
    cash: real, holdings: map<string, real>, working: map<OrderId, Working>, known: set<OrderId>) {

    function Held(symbol: string): real {
      if symbol in holdings then holdings[symbol] else 0.0
    }
  }

  datatype Outcome =
    | Accepted(filled: real, price: real)  // any part of the quantity fills at once, the rest works
    | Refused(raised: bool)                // the broker raised an error, or recorded a rejection and returned it
    | Duplicate                            // the identifier is known: the earlier order is returned

  /** Cash and holdings after `signed` shares of a symbol change hands at a price. */
  ghost predicate Trades(v: View, symbol: string, signed: real, price: real, v': View) {
    && v'.cash == v.cash - Times(signed, price)
    && forall s: string :: v'.Held(s) == v.Held(s) + if s == symbol then signed else 0.0
  }

  ghost predicate SubmitStep(v: View, r: Request, out: Outcome, v': View) {
    match out
    case Accepted(filled, price) =>
      && r.id !in v.known
      && 0.0 <= filled <= r.qty
      && 0.0 < price
      && Trades(v, r.symbol, Signed(r.side, filled), price, v')
      && v'.working == (if filled < r.qty then v.working[r.id := Working(r.symbol, r.side, r.qty, filled)]
                        else v.working)
      && v'.known == v.known + {r.id}
    case Refused(_) =>
      v'.cash == v.cash && v'.holdings == v.holdings && v'.working == v.working
      && v.known <= v'.known <= v.known + {r.id}
    case Duplicate =>
      r.id in v.known && v' == v
  }

  /** Part or all of what is pending on a working order fills. */
  ghost predicate FillStep(v: View, id: OrderId, amount: real, price: real, v': View) {
    && id in v.working
    && var w := v.working[id];
    && 0.0 < amount <= w.qty - w.filled
    && 0.0 < price
    && Trades(v, w.symbol, Signed(w.side, amount), price, v')
    && v'.working == (if w.filled + amount == w.qty then v.working - {id}
                      else v.working[id := w.(filled := w.filled + amount)])
    && v'.known == v.known
  }

  ghost predicate Valid(v: View) {
    && v.working.Keys <= v.known
    && forall id :: id in v.working ==> v.working[id].Valid()
  }

  /** The pending quantity of each working order, counted for one symbol. */
  function PendingTerms(working: map<OrderId, Working>, symbol: string): map<OrderId, real> {
    map id | id in working :: if working[id].symbol == symbol then working[id].Pending() else 0.0
  }

  /** Holdings as execution counts them: what is held plus what is pending. */
  ghost function Effective(v: View, symbol: string): real {
    v.Held(symbol) + Total(PendingTerms(v.working, symbol))
  }

  lemma FillKeepsValid(v: View, id: OrderId, amount: real, price: real, v': View)
    requires Valid(v) && FillStep(v, id, amount, price, v')
    ensures Valid(v')
  {
  }

  /** A fill moves shares from pending to held: effective holdings do not change. */
  lemma FillKeepsEffective(v: View, id: OrderId, amount: real, price: real, v': View, symbol: string)
    requires FillStep(v, id, amount, price, v')
    ensures Effective(v', symbol) == Effective(v, symbol)
  {
    var before, after := PendingTerms(v.working, symbol), PendingTerms(v'.working, symbol);
    assert before - {id} == after - {id};
    TotalRemove(before, id);
    if id in after {
      TotalRemove(after, id);
    } else {
      assert after - {id} == after;
    }
  }

  /** Accepting an order moves effective holdings by its whole quantity, however much filled at once. */
  lemma SubmitMovesEffective(v: View, r: Request, out: Outcome, v': View, symbol: string)
    requires Valid(v) && SubmitStep(v, r, out, v')
    ensures Valid(v')
    ensures Effective(v', symbol) == Effective(v, symbol) +
      if out.Accepted? && symbol == r.symbol then Signed(r.side, r.qty) else 0.0
  {
    if out.Accepted? && out.filled < r.qty {
      var before, after := PendingTerms(v.working, symbol), PendingTerms(v'.working, symbol);
      assert after == before[r.id := after[r.id]];
      TotalUpdate(before, r.id, after[r.id]);
    }
  }
}
