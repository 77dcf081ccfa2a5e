/** A broker that may do anything the protocol allows: rest, fill in part, fill, reject or raise. */
module Venues {
  import opened Prelude
  import opened Orders
  import opened BrokerProtocol
  import opened Planning

  class Venue {
    var cash: real
    var holdings: map<string, real>
    var working: map<OrderId, Working>
    var known: set<OrderId>
    var equity: real
    var lastEquity: real

    ghost function View(): View
      reads this
    {
      BrokerProtocol.View(cash, holdings, working, known)
    }

    ghost predicate Valid()
      reads this
    {
      BrokerProtocol.Valid(View())
    }

    constructor (cash: real)
      ensures Valid() && this.cash == cash && holdings == map[] && working == map[] && known == {}
    {
      this.cash, equity, lastEquity := cash, cash, cash;
      holdings, working, known := map[], map[], {};
    }

    method GetAccount() returns (account: Account)
      ensures account == Account(equity, cash, Max(cash, 0.0), lastEquity)
    {
      account := Account(equity, cash, Max(cash, 0.0), lastEquity);
    }

    /** The open positions; a flat symbol is not listed. */
    method GetPositions() returns (positions: map<string, real>)
      ensures positions == map s | s in holdings && holdings[s] != 0.0 :: holdings[s]
    {
      positions := map s | s in holdings && holdings[s] != 0.0 :: holdings[s];
    }

    method GetOpenOrders() returns (open: map<OrderId, Working>)
      ensures open == working
    {
      open := working;
    }

    method Trade(symbol: string, signed: real, price: real)
      modifies this`cash, this`holdings
      ensures Trades(old(View()), symbol, signed, price, View())
    {
      cash := cash - Times(signed, price);
      var held := if symbol in holdings then holdings[symbol] else 0.0;
      holdings := holdings[symbol := held + signed];
    }

    /** Any answer the protocol allows; the market's prices and moods are not the client's to know. */
    method SubmitOrder(r: Request) returns (outcome: Outcome)
      requires Valid() && 0.0 < r.qty
      modifies this
      ensures Valid() && SubmitStep(old(View()), r, outcome, View())
      ensures equity == old(equity) && lastEquity == old(lastEquity)
    {
      if r.id in known {
        return Duplicate;
      }
      var rejects: bool, remembers: bool := *, *;
      if rejects {
        if remembers {
          known := known + {r.id};
        }
        var raises: bool := *;
        return Refused(raises);
      }
      var filled: real, price: real := *, *;
      filled := if 0.0 <= filled <= r.qty then filled else 0.0;
      price := if 0.0 < price then price else 1.0;
      Trade(r.symbol, Signed(r.side, filled), price);
      if filled < r.qty {
        working := working[r.id := Working(r.symbol, r.side, r.qty, filled)];
      }
      known := known + {r.id};
      outcome := Outcome.Accepted(filled, price);
    }

    /** Working orders fill, any of them, by any amounts, for as long as it takes. */
    method TimePasses() returns (ghost views: seq<View>)
      requires Valid()
      modifies this
      ensures Valid() && Activity(views) && views[0] == old(View()) && views[|views| - 1] == View()
    {
      views := [View()];
      var steps: nat := *;
      while steps > 0
        invariant Valid() && Activity(views) && views[0] == old(View()) && views[|views| - 1] == View()
      {
        steps := steps - 1;
        if working != map[] {
          var id :| id in working;
          var w := working[id];
          var amount: real, price: real := *, *;
          amount := if 0.0 < amount <= w.qty - w.filled then amount else w.qty - w.filled;
          price := if 0.0 < price then price else 1.0;
          ghost var before := View();
          Trade(w.symbol, Signed(w.side, amount), price);
          working := if w.filled + amount == w.qty then working - {id}
                     else working[id := w.(filled := w.filled + amount)];
          assert FillStep(before, id, amount, price, View());
          views := views + [View()];
        }
      }
      equity, lastEquity := *, *;
    }
  }
}
