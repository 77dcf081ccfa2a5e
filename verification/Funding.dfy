/** Cash during a rebalance: selling first funds the buys, and a filled rebalance cannot overspend. */
module Funding {
  import opened Prelude
  import opened Sums
  import opened Orders
  import opened BrokerProtocol
  import opened Planning

  /** Every sell comes before every buy. */
  ghost predicate SellsLead(orders: seq<Planned>) {
    forall i, j :: 0 <= i < j < |orders| && orders[i].request.side == Buy ==> orders[j].request.side == Buy
  }

  lemma SellsFirstLead(plan: seq<Planned>)
    ensures SellsLead(SellsFirst(plan))
  {
    OnSideKeepsElements(plan, Sell);
    OnSideKeepsElements(plan, Buy);
    var sells, buys := OnSide(plan, Sell), OnSide(plan, Buy);
    var orders: seq<Planned> := sells + buys;
    forall i | 0 <= i < |orders|
      ensures orders[i].request.side == if i < |sells| then Sell else Buy
    {
      if i < |sells| {
        assert sells[i] in sells;
      } else {
        assert buys[i - |sells|] in buys;
      }
    }
  }

  /** One turn never takes cash for a sell nor gives cash for a buy. */
  lemma TurnMovesCash(v: View, p: Planned, capped: bool, slots: int, fate: Fate, v': View)
    requires Turn(v, p, capped, slots, fate, v')
    ensures p.request.side == Sell ==> v.cash <= v'.cash
    ensures p.request.side == Buy ==> v'.cash <= v.cash
  {
    if fate.WasAccepted() {
      var filled, price := fate.outcome.filled, fate.outcome.price;
      ProductNonNegative(filled, price);
      assert Times(-filled, price) == -Times(filled, price);
    }
  }

  lemma {:induction false} CashRisesThenFalls(
      orders: seq<Planned>, slots: int, fates: seq<Fate>, views: seq<View>, i: nat, j: nat)
    requires Submission(orders, slots, fates, views) && i <= j <= |orders|
    ensures (forall k :: i <= k < j ==> orders[k].request.side == Sell) ==> views[i].cash <= views[j].cash
    ensures (forall k :: i <= k < j ==> orders[k].request.side == Buy) ==> views[j].cash <= views[i].cash
    decreases j - i
  {
    if i < j {
      CashRisesThenFalls(orders, slots, fates, views, i, j - 1);
      assert TurnAt(orders, slots, fates, views, j - 1);
      TurnMovesCash(views[j - 1], orders[j - 1], j - 1 > 0 && fates[j - 2] == NotReached,
        slots - SlotsUsed(fates[..j - 1]), fates[j - 1], views[j]);
    }
  }

  /**
   * Whichever orders are skipped, refused, cut by the rate cap or partly filled, cash during the
   * submission of a plan never falls below the smaller of where it starts and where it ends.
   */
  lemma SellsFundBuys(plan: seq<Planned>, slots: int, fates: seq<Fate>, views: seq<View>, i: nat)
    requires Submission(SellsFirst(plan), slots, fates, views)
    requires i < |views|
    ensures views[i].cash >= Min(views[0].cash, views[|views| - 1].cash)
  {
    var orders := SellsFirst(plan);
    SellsFirstLead(plan);
    if forall k :: 0 <= k < i ==> orders[k].request.side == Sell {
      CashRisesThenFalls(orders, slots, fates, views, 0, i);
    } else {
      CashRisesThenFalls(orders, slots, fates, views, i, |orders|);
    }
  }

  // --------------------------------------------------- a fully filled rebalance

  /** Every order filled whole at the price it was sized at. */
  ghost predicate AllFilled(orders: seq<Planned>, fates: seq<Fate>) {
    && |fates| == |orders|
    && forall i :: 0 <= i < |orders| ==> fates[i] == Answered(Outcome.Accepted(orders[i].request.qty, orders[i].price))
  }

  /** The cash a list of orders spends when filled at their prices. */
  function Spend(orders: seq<Planned>): real {
    if orders == [] then 0.0
    else
      var p := orders[|orders| - 1];
      Spend(orders[..|orders| - 1]) + Times(Signed(p.request.side, p.request.qty), p.price)
  }

  lemma {:induction false} FilledRunSpends(orders: seq<Planned>, slots: int, fates: seq<Fate>, views: seq<View>)
    requires Submission(orders, slots, fates, views) && AllFilled(orders, fates)
    ensures views[|orders|].cash == views[0].cash - Spend(orders)
  {
    if orders != [] {
      var n := |orders| - 1;
      SubmissionPrefix(orders, slots, fates, views, n);
      assert TurnAt(orders, slots, fates, views, n);
      FilledRunSpends(orders[..n], slots, fates[..n], views[..n + 1]);
    }
  }

  lemma {:induction false} SpendSplits(a: seq<Planned>, c: seq<Planned>)
    ensures Spend(a + c) == Spend(a) + Spend(c)
  {
    if c == [] {
      assert a + c == a;
    } else {
      assert (a + c)[..|a + c| - 1] == a + c[..|c| - 1];
      SpendSplits(a, c[..|c| - 1]);
    }
  }

  /** Sorting the plan does not change what it spends. */
  lemma {:induction false} SidesSpendTheWhole(plan: seq<Planned>)
    ensures Spend(SellsFirst(plan)) == Spend(plan)
  {
    SpendSplits(OnSide(plan, Sell), OnSide(plan, Buy));
    if plan != [] {
      SidesSpendTheWhole(plan[1..]);
      SpendSplits(OnSide(plan[1..], Sell), OnSide(plan[1..], Buy));
      assert plan == [plan[0]] + plan[1..];
      SpendSplits([plan[0]], plan[1..]);
      SideSpends(plan, Sell);
      SideSpends(plan, Buy);
    }
  }

  lemma SideSpends(plan: seq<Planned>, side: Side)
    requires plan != []
    ensures Spend(OnSide(plan, side)) ==
      if plan[0].request.side == side then Spend([plan[0]]) + Spend(OnSide(plan[1..], side))
      else Spend(OnSide(plan[1..], side))
  {
    assert [] + OnSide(plan[1..], side) == OnSide(plan[1..], side);
    SpendSplits([plan[0]], OnSide(plan[1..], side));
  }

  // ------------------------------------------------ sums over the target names

  /** The capital the brief assigns to its priced names. */
  function Assigned(b: Brief): real
    decreases |b.targets|
  {
    if b.targets == [] then 0.0
    else
      (if b.terms.Priced(b.targets[0].symbol) then Times(b.targets[0].weight, b.terms.deployable) else 0.0)
      + Assigned(b.Rest())
  }

  /** One share and one currency unit per priced name: what rounding and dust can leave over. */
  function Slack(b: Brief): real
    decreases |b.targets|
  {
    if b.targets == [] then 0.0
    else
      (if b.terms.Priced(b.targets[0].symbol) then b.terms.prices[b.targets[0].symbol] + 1.0 else 0.0)
      + Slack(b.Rest())
  }

  /** The market value of what is held in the priced target names. */
  function HeldValue(b: Brief, v: View): real
    decreases |b.targets|
  {
    if b.targets == [] then 0.0
    else HeldTerm(b, v, b.targets[0].symbol) + HeldValue(b.Rest(), v)
  }

  function HeldTerm(b: Brief, v: View, symbol: string): real {
    if b.terms.Priced(symbol) then Times(v.Held(symbol), PriceOf(b.terms.prices, symbol)) else 0.0
  }

  function PriceOf(prices: map<string, real>, symbol: string): real {
    if symbol in prices then prices[symbol] else 0.0
  }

  function Worth(v: View, prices: map<string, real>): map<string, real> {
    map s | s in v.holdings :: Times(v.holdings[s], PriceOf(prices, s))
  }

  /** Equity at the brief's prices. */
  ghost function Equity(v: View, prices: map<string, real>): real {
    v.cash + Total(Worth(v, prices))
  }

  /** The names among the targets that have a usable price. */
  function PricedNames(b: Brief): set<string> {
    set t | t in b.targets && b.terms.Priced(t.symbol) :: t.symbol
  }

  /** Summed target by target or holding by holding, priced target names are worth the same. */
  lemma {:induction false} HeldValueIsWorth(b: Brief, v: View, ws: map<string, real>)
    requires b.Valid()
    requires ws.Keys <= PricedNames(b)
    requires forall s :: s in ws ==> ws[s] == Times(v.Held(s), PriceOf(b.terms.prices, s))
    requires forall s :: s in PricedNames(b) && s !in ws ==> v.Held(s) == 0.0
    ensures HeldValue(b, v) == Total(ws)
    decreases |b.targets|
  {
    if b.targets != [] {
      var s := b.targets[0].symbol;
      assert HeldValue(b.Rest(), v) == Total(ws - {s}) by {
        NamesOfRest(b);
        HeldValueIsWorth(b.Rest(), v, ws - {s});
      }
      NamesOfRest(b);
      if s in ws {
        TotalRemove(ws, s);
        assert HeldTerm(b, v, s) == ws[s];
      } else {
        assert ws - {s} == ws;
        assert HeldTerm(b, v, s) == 0.0 by {
          assert Times(0.0, PriceOf(b.terms.prices, s)) == 0.0;
        }
      }
    } else {
      assert ws == map[];
    }
  }

  lemma NamesOfRest(b: Brief)
    requires b.Valid() && b.targets != []
    ensures PricedNames(b.Rest()) == PricedNames(b) - {b.targets[0].symbol}
    ensures b.targets[0].symbol in PricedNames(b) <==> b.terms.Priced(b.targets[0].symbol)
  {
    var rest := b.Rest();
    forall t | t in b.targets && t != b.targets[0] ensures t in rest.targets {
      var i :| 0 <= i < |b.targets| && b.targets[i] == t;
      assert rest.targets[i - 1] == t;
    }
    forall t | t in rest.targets ensures t in b.targets && t.symbol != b.targets[0].symbol {
      var i :| 0 <= i < |rest.targets| && rest.targets[i] == t;
      assert b.targets[i + 1] == t;
    }
  }

  /** For one name: after its order, its holding is worth at most its target plus a share and a unit. */
  lemma OneNameFitsItsTarget(k: Terms, t: Target, current: real)
    requires k.Priced(t.symbol) && !k.fractional && k.band <= 0.0
    ensures Times(current, k.prices[t.symbol]) + Spend(OneOrNone(PlanOne(k, t, current)))
      <= Times(t.weight, k.deployable) + k.prices[t.symbol] + 1.0
  {
    var price, desired := k.prices[t.symbol], Desired(k, t);
    var delta := desired - current;
    var qty := Tradable(k, delta);
    assert Times(desired, price) == Times(t.weight, k.deployable);
    assert qty <= Abs(delta) < qty + 1.0;
    var one := OneOrNone(PlanOne(k, t, current));
    if one != [] {
      assert Spend(one[..0]) == 0.0;
      assert Spend(one) == Times(if delta > 0.0 then qty else -qty, price);
      RoundedTrade(current, desired, qty, price);
    } else {
      DustLeft(current, desired, qty, price);
    }
  }

  lemma RoundedTrade(current: real, desired: real, qty: real, price: real)
    requires price > 0.0
    requires qty <= Abs(desired - current) < qty + 1.0
    ensures Times(current, price) + Times(if desired - current > 0.0 then qty else -qty, price)
      <= Times(desired, price) + price
  {
    var final := current + if desired - current > 0.0 then qty else -qty;
    assert final <= desired + 1.0;
    MulMono(final, desired + 1.0, price);
  }

  lemma DustLeft(current: real, desired: real, qty: real, price: real)
    requires price > 0.0
    requires qty <= Abs(desired - current) < qty + 1.0
    requires Times(qty, price) < 1.0
    requires 0.0 <= qty
    ensures Times(current, price) <= Times(desired, price) + price + 1.0
  {
    MulMono(current, desired + qty + 1.0, price);
  }

  lemma {:induction false} NamesFitTheirTargets(b: Brief, v: View)
    requires !b.terms.fractional && b.terms.band <= 0.0 && v.working == map[]
    ensures HeldValue(b, v) + Spend(Plan(b, v)) <= Assigned(b) + Slack(b)
    decreases |b.targets|
  {
    if b.targets != [] {
      var t := b.targets[0];
      NamesFitTheirTargets(b.Rest(), v);
      assert PendingTerms(v.working, t.symbol) == map[];
      var head := OneOrNone(PlanOne(b.terms, t, Effective(v, t.symbol)));
      SpendSplits(head, Plan(b.Rest(), v));
      if b.terms.Priced(t.symbol) {
        OneNameFitsItsTarget(b.terms, t, v.Held(t.symbol));
      }
    }
  }

  /** What a fully filled whole-share rebalance without band starts from. */
  ghost predicate FilledRebalance(b: Brief, slots: int, fates: seq<Fate>, views: seq<View>) {
    && b.Valid() && !b.terms.fractional && b.terms.band <= 0.0
    && |views| > 0 && views[0].working == map[]
    && views[0].holdings.Keys <= PricedNames(b)
    && Submission(SellsFirst(Plan(b, views[0])), slots, fates, views)
    && AllFilled(SellsFirst(Plan(b, views[0])), fates)
  }

  /** The equity a brief does not assign, less one share and one unit per name. */
  ghost function Reserve(b: Brief, v: View): real {
    Equity(v, b.terms.prices) - Assigned(b) - Slack(b)
  }

  /**
   * A whole-share rebalance, from holdings in priced target names and no working orders,
   * with every order filled at its price, ends with at least the reserve in cash.
   */
  lemma FilledRebalanceKeepsReserve(b: Brief, slots: int, fates: seq<Fate>, views: seq<View>)
    requires FilledRebalance(b, slots, fates, views)
    ensures views[|views| - 1].cash >= Reserve(b, views[0])
  {
    var v := views[0];
    FilledRunSpends(SellsFirst(Plan(b, v)), slots, fates, views);
    SidesSpendTheWhole(Plan(b, v));
    NamesFitTheirTargets(b, v);
    HeldValueIsWorth(b, v, Worth(v, b.terms.prices));
  }

  /** Nor is there less at any moment on the way, unless it started with less. */
  lemma CashStaysAboveReserve(b: Brief, slots: int, fates: seq<Fate>, views: seq<View>, i: nat)
    requires FilledRebalance(b, slots, fates, views) && i < |views|
    ensures views[i].cash >= Min(views[0].cash, Reserve(b, views[0]))
  {
    SellsFundBuys(Plan(b, views[0]), slots, fates, views, i);
    FilledRebalanceKeepsReserve(b, slots, fates, views);
    MinMono(views[i].cash, views[0].cash, views[|views| - 1].cash, Reserve(b, views[0]));
  }

  lemma MinMono(x: real, a: real, c: real, c': real)
    requires x >= Min(a, c) && c >= c'
    ensures x >= Min(a, c')
  {
  }

  /** For a long-only brief, what is assigned is at most deployable capital times gross exposure. */
  function GrossWeight(targets: seq<Target>): real {
    if targets == [] then 0.0 else Abs(targets[0].weight) + GrossWeight(targets[1..])
  }

  lemma {:induction false} LongOnlyReserve(b: Brief, v: View)
    requires b.terms.deployable >= 0.0
    requires forall t :: t in b.targets ==> t.weight >= 0.0
    ensures Reserve(b, v) >= Equity(v, b.terms.prices) - Times(GrossWeight(b.targets), b.terms.deployable) - Slack(b)
  {
    AssignedWithinGross(b);
  }

  lemma {:induction false} AssignedWithinGross(b: Brief)
    requires b.terms.deployable >= 0.0
    requires forall t :: t in b.targets ==> t.weight >= 0.0
    ensures Assigned(b) <= Times(GrossWeight(b.targets), b.terms.deployable)
    decreases |b.targets|
  {
    if b.targets != [] {
      AssignedWithinGross(b.Rest());
      ProductNonNegative(b.targets[0].weight, b.terms.deployable);
      Distribute(b.targets[0].weight, GrossWeight(b.targets[1..]), b.terms.deployable);
    } else {
      assert Times(0.0, b.terms.deployable) == 0.0;
    }
  }
}
