/**
 * From target weights to orders: what the rebalance planner asks for, in which order it
 * submits, and the two laws this is built for. Replanning repeats exactly what was not
 * accepted, and selling first never lets cash dip below where it starts or ends.
 */
module Planning {
  import opened Prelude
  import opened Sums
  import opened Orders
  import opened BrokerProtocol

  datatype Target = Target(symbol: string, weight: real)

  /** The terms every name is sized on. */
  datatype Terms = Terms(
    prices: map<string, real>, deployable: real, fractional: bool, band: real, second: int) {

    predicate Priced(symbol: string) {
      symbol in prices && prices[symbol] > 0.0
    }
  }

  /** Everything the planner is given besides the account. Targets come in dictionary order. */
  datatype Brief = Brief(targets: seq<Target>, terms: Terms) {

    /** The targets are a dictionary's items: no symbol twice. */
    ghost predicate Valid() {
      forall i, j :: 0 <= i < j < |targets| ==> targets[i].symbol != targets[j].symbol
    }

    function Rest(): Brief
      requires targets != []
    {
      Brief(targets[1..], terms)
    }

    /** The same inputs at another second. */
    function At(second: int): Brief {
      Brief(targets, terms.(second := second))
    }
  }

  /** An order about to be submitted, with the price it was sized at. */
  datatype Planned = Planned(request: Request, price: real)

  function Desired(k: Terms, t: Target): real
    requires k.Priced(t.symbol)
  {
    Times(t.weight, k.deployable) / k.prices[t.symbol]
  }

  /** A small drift of an existing position that is meant to stay is not worth its turnover. */
  predicate InsideBand(k: Terms, current: real, desired: real) {
    k.band > 0.0 && current != 0.0 && desired != 0.0 && Abs(desired - current) < Times(k.band, Abs(desired))
  }

  function Tradable(k: Terms, delta: real): real {
    if k.fractional then Abs(delta) else Abs(delta).Floor as real
  }

  /** The order for one target, if it is priced, outside the band and not dust. */
  function PlanOne(k: Terms, t: Target, current: real): Option<Planned> {
    if !k.Priced(t.symbol) then None
    else
      var price, desired := k.prices[t.symbol], Desired(k, t);
      var qty := Tradable(k, desired - current);
      if InsideBand(k, current, desired) || Times(qty, price) < 1.0 then None
      else
        var side := if desired - current > 0.0 then Buy else Sell;
        Some(Planned(Request(Rebalance(k.second, t.symbol), t.symbol, side, qty, Market, None), price))
  }

  function OneOrNone<T>(o: Option<T>): seq<T> {
    match o case None => [] case Some(x) => [x]
  }

  /** The orders for all targets, in target order, against effective holdings. */
  ghost function Plan(b: Brief, v: View): seq<Planned>
    decreases |b.targets|
  {
    if b.targets == [] then []
    else OneOrNone(PlanOne(b.terms, b.targets[0], Effective(v, b.targets[0].symbol))) + Plan(b.Rest(), v)
  }

  function OnSide(plan: seq<Planned>, side: Side): seq<Planned> {
    if plan == [] then []
    else (if plan[0].request.side == side then [plan[0]] else []) + OnSide(plan[1..], side)
  }

  /** The stable sort that puts sells before buys. */
  function SellsFirst(plan: seq<Planned>): seq<Planned> {
    OnSide(plan, Sell) + OnSide(plan, Buy)
  }

  // ------------------------------------------------------------- submission

  const MAX_QTY := 10_000_000.0
  const MAX_PRICE_DEVIATION := 0.2

  /** The order is neither empty, absurdly large, nor limited far from the market. */
  predicate Sane(r: Request, refPrice: real) {
    && 0.0 < r.qty <= MAX_QTY
    && !(r.orderType == Limit && r.limitPrice.Some? && refPrice > 0.0
         && Abs(r.limitPrice.value - refPrice) / refPrice > MAX_PRICE_DEVIATION)
  }

  /** What became of a planned order. */
  datatype Fate = Malformed | NotReached | Answered(outcome: Outcome) {
    predicate WasAccepted() {
      Answered? && outcome.Accepted?
    }
  }

  function SlotsUsed(fates: seq<Fate>): nat {
    if fates == [] then 0 else SlotsUsed(fates[1..]) + if fates[0].Answered? then 1 else 0
  }

  /** One turn of the submission loop: the sanity check, the rate cap, then the broker. */
  ghost predicate Turn(v: View, p: Planned, capped: bool, slots: int, fate: Fate, v': View) {
    var sane := Sane(p.request, p.price);
    match fate
    case NotReached => (capped || (sane && slots <= 0)) && v' == v
    case Malformed => !capped && !sane && v' == v
    case Answered(outcome) => !capped && sane && slots > 0 && SubmitStep(v, p.request, outcome, v')
  }

  /** The i-th turn of a run of the loop that starts with that many submissions left in the interval. */
  ghost predicate TurnAt(orders: seq<Planned>, slots: int, fates: seq<Fate>, views: seq<View>, i: nat)
    requires i < |orders| == |fates| && |views| == |orders| + 1
  {
    Turn(views[i], orders[i], i > 0 && fates[i - 1] == NotReached,
      slots - SlotsUsed(fates[..i]), fates[i], views[i + 1])
  }

  ghost predicate Submission(orders: seq<Planned>, slots: int, fates: seq<Fate>, views: seq<View>) {
    && |fates| == |orders|
    && |views| == |orders| + 1
    && forall i {:trigger TurnAt(orders, slots, fates, views, i)} ::
      0 <= i < |orders| ==> TurnAt(orders, slots, fates, views, i)
  }

  /** The first n turns of a run are a run. */
  lemma SubmissionPrefix(orders: seq<Planned>, slots: int, fates: seq<Fate>, views: seq<View>, n: nat)
    requires Submission(orders, slots, fates, views) && n <= |orders|
    ensures Submission(orders[..n], slots, fates[..n], views[..n + 1])
  {
    var orders', fates', views' := orders[..n], fates[..n], views[..n + 1];
    forall i | 0 <= i < n ensures TurnAt(orders', slots, fates', views', i) {
      assert TurnAt(orders, slots, fates, views, i);
      assert fates'[..i] == fates[..i];
    }
  }

  /** The sanity check over the order's own fields. */
  lemma SaneIff(r: Request, refPrice: real)
    ensures Sane(r, refPrice) <==>
      && 0.0 < r.qty <= 10_000_000.0
      && (r.orderType == Limit && r.limitPrice.Some? && refPrice > 0.0 ==>
            Times(0.8, refPrice) <= r.limitPrice.value <= Times(1.2, refPrice))
  {
    if r.orderType == Limit && r.limitPrice.Some? && refPrice > 0.0 {
      WithinDeviation(r.limitPrice.value - refPrice, refPrice);
    }
  }

  lemma WithinDeviation(gap: real, price: real)
    requires price > 0.0
    ensures Abs(gap) / price > 0.2 <==> Abs(gap) > Times(0.2, price)
  {
    var ratio := Abs(gap) / price;
    assert Times(ratio, price) == Abs(gap);
    if ratio > 0.2 {
      assert Times(ratio - 0.2, price) > 0.0;
      Distribute(ratio - 0.2, 0.2, price);
    } else {
      MulMono(ratio, 0.2, price);
    }
  }

  /** How many of the orders pass the sanity check. */
  function SaneOnes(orders: seq<Planned>): nat {
    if orders == [] then 0
    else
      var p := orders[|orders| - 1];
      SaneOnes(orders[..|orders| - 1]) + if Sane(p.request, p.price) then 1 else 0
  }

  lemma {:induction false} SlotsUsedGrows(fates: seq<Fate>, n: nat)
    requires n < |fates|
    ensures SlotsUsed(fates[..n + 1]) == SlotsUsed(fates[..n]) + if fates[n].Answered? then 1 else 0
    decreases n
  {
    if n > 0 {
      SlotsUsedGrows(fates[1..], n - 1);
      assert fates[..n + 1][1..] == fates[1..][..n] && fates[..n][1..] == fates[1..][..n - 1];
    } else {
      assert fates[..1][1..] == [];
    }
  }

  /** Until the cap is reached, every sane order has used a slot; from then on nothing is reached. */
  ghost predicate CapReached(orders: seq<Planned>, slots: int, fates: seq<Fate>, n: nat)
    requires n <= |orders| == |fates|
  {
    var sane := SaneOnes(orders[..n]);
    if n > 0 && fates[n - 1] == NotReached then sane > slots && sane > 0
    else SlotsUsed(fates[..n]) == sane && (sane <= slots || sane == 0)
  }

  lemma {:induction false} CapHolds(orders: seq<Planned>, slots: int, fates: seq<Fate>, views: seq<View>, n: nat)
    requires Submission(orders, slots, fates, views) && n <= |orders|
    ensures CapReached(orders, slots, fates, n)
  {
    if n > 0 {
      CapHolds(orders, slots, fates, views, n - 1);
      assert TurnAt(orders, slots, fates, views, n - 1);
      SlotsUsedGrows(fates, n - 1);
      assert orders[..n][..n - 1] == orders[..n - 1];
    }
  }

  /**
   * The rate cap: the broker is sent exactly the sane orders before which fewer sane ones came than slots were left;
   * a malformed order is skipped, unless a sane one has already found no slot.
   */
  lemma SentIff(orders: seq<Planned>, slots: int, fates: seq<Fate>, views: seq<View>, i: nat)
    requires Submission(orders, slots, fates, views) && i < |orders|
    ensures fates[i].Answered? <==> Sane(orders[i].request, orders[i].price) && SaneOnes(orders[..i]) < slots
    ensures fates[i].Malformed? <==>
      !Sane(orders[i].request, orders[i].price) && (SaneOnes(orders[..i]) <= slots || SaneOnes(orders[..i]) == 0)
  {
    CapHolds(orders, slots, fates, views, i);
    assert TurnAt(orders, slots, fates, views, i);
  }

  ghost predicate SomeFill(v: View, v': View) {
    exists id, amount, price :: FillStep(v, id, amount, price, v')
  }

  /** Any later activity at the broker: working orders fill, in any amounts, in any order. */
  ghost predicate Activity(views: seq<View>) {
    && |views| > 0
    && forall i :: 0 <= i < |views| - 1 ==> SomeFill(views[i], views[i + 1])
  }

  function Symbols(plan: seq<Planned>): set<string> {
    set i | 0 <= i < |plan| :: plan[i].request.symbol
  }

  ghost predicate Distinct(plan: seq<Planned>) {
    forall i, j :: 0 <= i < j < |plan| ==> plan[i].request.symbol != plan[j].request.symbol
  }

  /** The orders that were not accepted, in the order they were tried. */
  function Unaccepted(orders: seq<Planned>, fates: seq<Fate>): seq<Planned>
    requires |fates| == |orders|
  {
    if orders == [] then []
    else (if fates[0].WasAccepted() then [] else [orders[0]]) + Unaccepted(orders[1..], fates[1..])
  }

  /** The same orders under the identifiers of another run. */
  function Restamped(plan: seq<Planned>, second: int): seq<Planned> {
    if plan == [] then []
    else
      var r := plan[0].request;
      [plan[0].(request := r.(id := Rebalance(second, r.symbol)))] + Restamped(plan[1..], second)
  }

  function Without(plan: seq<Planned>, symbols: set<string>): seq<Planned> {
    if plan == [] then []
    else (if plan[0].request.symbol in symbols then [] else [plan[0]]) + Without(plan[1..], symbols)
  }

  // ------------------------------------------------------------ single names

  /** Whatever was accepted for a name, replanning it asks for nothing more. */
  lemma AcceptedNameIsDone(k: Terms, t: Target, current: real, p: Planned, after: real)
    requires PlanOne(k, t, current) == Some(p)
    requires after == current + Signed(p.request.side, p.request.qty)
    ensures PlanOne(k, t, after) == None
  {
    var left := Desired(k, t) - after;
    assert 0.0 <= Abs(left) < 1.0 && (k.fractional ==> left == 0.0);
    assert Tradable(k, left) == 0.0;
    assert Times(0.0, k.prices[t.symbol]) == 0.0;
  }

  // ------------------------------------------------- what an order is for

  /** What can be traded of a gap is worth less than one unit of money. */
  predicate Negligible(gap: real, price: real, fractional: bool) {
    Times(if fractional then Abs(gap) else Abs(gap).Floor as real, price) < 1.0
  }

  /** The gap of a position that is meant to stay is less than the given part of its goal. */
  predicate Tolerated(held: real, goal: real, band: real) {
    held != 0.0 && goal != 0.0 && Abs(goal - held) < Times(band, Abs(goal))
  }

  /** A holding has moved to its goal: all the way, or in whole shares to the near side and less than a share away. */
  predicate Arrives(held: real, after: real, goal: real, fractional: bool) {
    if fractional then after == goal
    else held <= after <= goal < after + 1.0 || after - 1.0 < goal <= after <= held
  }

  /** The order takes what is held to the goal, at the market. */
  ghost predicate OrderArrives(r: Request, held: real, goal: real, fractional: bool) {
    && r.qty > 0.0 && r.orderType == Market
    && Arrives(held, held + if r.side == Buy then r.qty else -r.qty, goal, fractional)
  }

  /** What a name's order has to be, if it has one, given what is held of it. */
  ghost predicate Sized(k: Terms, t: Target, held: real, planned: Option<Planned>) {
    if t.symbol !in k.prices || k.prices[t.symbol] <= 0.0 then planned == None
    else
      var price := k.prices[t.symbol];
      var goal := Times(t.weight, k.deployable) / price;
      if Tolerated(held, goal, k.band) || Negligible(goal - held, price, k.fractional) then planned == None
      else
        && planned.Some? && planned.value.price == price
        && planned.value.request.id == Rebalance(k.second, t.symbol) && planned.value.request.symbol == t.symbol
        && OrderArrives(planned.value.request, held, goal, k.fractional)
  }

  lemma BandNeedsAPositiveSize(band: real, goal: real)
    requires band <= 0.0
    ensures Times(band, Abs(goal)) <= 0.0
  {
    ProductNonNegative(-band, Abs(goal));
  }

  /**
   * A name has no order exactly if it is unpriced, its drift is inside the band, or what could be traded is worth less
   * than a unit of money; otherwise its order takes it to its goal.
   */
  lemma PlanOneIsSized(k: Terms, t: Target, held: real)
    ensures Sized(k, t, held, PlanOne(k, t, held))
  {
    if k.Priced(t.symbol) {
      var price, goal := k.prices[t.symbol], Desired(k, t);
      BandIsTolerance(k, held, goal);
      var qty := Tradable(k, goal - held);
      if Times(qty, price) >= 1.0 {
        WorthTrading(qty, price);
        QuantityArrives(held, goal, qty, k.fractional);
      }
    }
  }

  lemma BandIsTolerance(k: Terms, held: real, goal: real)
    ensures InsideBand(k, held, goal) <==> Tolerated(held, goal, k.band)
  {
    if k.band <= 0.0 {
      BandNeedsAPositiveSize(k.band, goal);
    }
  }

  lemma WorthTrading(qty: real, price: real)
    requires 0.0 <= qty && Times(qty, price) >= 1.0
    ensures qty > 0.0
  {
    assert qty == 0.0 ==> Times(qty, price) == 0.0;
  }

  lemma QuantityArrives(held: real, goal: real, qty: real, fractional: bool)
    requires qty > 0.0 && qty == if fractional then Abs(goal - held) else Abs(goal - held).Floor as real
    ensures Arrives(held, held + if goal - held > 0.0 then qty else -qty, goal, fractional)
  {
  }

  /** The order planned for one name of a brief, whether or not it is among the targets' orders. */
  ghost predicate PlannedFor(b: Brief, v: View, t: Target, p: Planned) {
    PlanOne(b.terms, t, Effective(v, t.symbol)) == Some(p)
  }

  // ------------------------------------------------------- lists of orders

  lemma {:induction false} OnSideSplits(a: seq<Planned>, c: seq<Planned>, side: Side)
    ensures OnSide(a + c, side) == OnSide(a, side) + OnSide(c, side)
  {
    if a == [] {
      assert a + c == c;
    } else {
      assert (a + c)[0] == a[0] && (a + c)[1..] == a[1..] + c;
      OnSideSplits(a[1..], c, side);
    }
  }

  lemma {:induction false} WithoutSplits(a: seq<Planned>, c: seq<Planned>, gone: set<string>)
    ensures Without(a + c, gone) == Without(a, gone) + Without(c, gone)
  {
    if a == [] {
      assert a + c == c;
    } else {
      assert (a + c)[1..] == a[1..] + c;
      WithoutSplits(a[1..], c, gone);
    }
  }

  lemma {:induction false} RestampedSplits(a: seq<Planned>, c: seq<Planned>, second: int)
    ensures Restamped(a + c, second) == Restamped(a, second) + Restamped(c, second)
  {
    if a == [] {
      assert a + c == c;
    } else {
      assert (a + c)[1..] == a[1..] + c;
      RestampedSplits(a[1..], c, second);
    }
  }

  /** Dropping names and restamping identifiers does not disturb the submission order. */
  lemma {:induction false} OneSideOfTheRest(plan: seq<Planned>, gone: set<string>, second: int, side: Side)
    ensures OnSide(Restamped(Without(plan, gone), second), side) == Restamped(Without(OnSide(plan, side), gone), second)
  {
    if plan != [] {
      OneSideOfTheRest(plan[1..], gone, second, side);
      var head := if plan[0].request.symbol in gone then [] else [plan[0]];
      var tail := Without(plan[1..], gone);
      RestampedSplits(head, tail, second);
      OnSideSplits(Restamped(head, second), Restamped(tail, second), side);
      var kept := if plan[0].request.side == side then [plan[0]] else [];
      WithoutSplits(kept, OnSide(plan[1..], side), gone);
      RestampedSplits(Without(kept, gone), Without(OnSide(plan[1..], side), gone), second);
    }
  }

  lemma SellsFirstOfTheRest(plan: seq<Planned>, gone: set<string>, second: int)
    ensures SellsFirst(Restamped(Without(plan, gone), second)) == Restamped(Without(SellsFirst(plan), gone), second)
  {
    OneSideOfTheRest(plan, gone, second, Sell);
    OneSideOfTheRest(plan, gone, second, Buy);
    WithoutSplits(OnSide(plan, Sell), OnSide(plan, Buy), gone);
    RestampedSplits(Without(OnSide(plan, Sell), gone), Without(OnSide(plan, Buy), gone), second);
  }

  lemma {:induction false} OnSideKeepsElements(plan: seq<Planned>, side: Side)
    ensures forall p :: p in OnSide(plan, side) <==> p in plan && p.request.side == side
  {
    if plan != [] {
      OnSideKeepsElements(plan[1..], side);
      assert plan == [plan[0]] + plan[1..];
    }
  }

  lemma {:induction false} OnSideStaysDistinct(plan: seq<Planned>, side: Side)
    requires Distinct(plan)
    ensures Distinct(OnSide(plan, side))
  {
    if plan != [] {
      OnSideStaysDistinct(plan[1..], side);
      OnSideKeepsElements(plan[1..], side);
      var tail := OnSide(plan[1..], side);
      forall j | 0 <= j < |tail| ensures tail[j].request.symbol != plan[0].request.symbol {
        assert tail[j] in plan[1..];
      }
    }
  }

  lemma SellsFirstIsAPermutation(plan: seq<Planned>)
    requires Distinct(plan)
    ensures Distinct(SellsFirst(plan))
    ensures forall p :: p in SellsFirst(plan) <==> p in plan
  {
    OnSideStaysDistinct(plan, Sell);
    OnSideStaysDistinct(plan, Buy);
    OnSideKeepsElements(plan, Sell);
    OnSideKeepsElements(plan, Buy);
    var sells, buys := OnSide(plan, Sell), OnSide(plan, Buy);
    forall i, j | 0 <= i < |sells| && 0 <= j < |buys| ensures sells[i].request.symbol != buys[j].request.symbol {
      assert sells[i] in plan && buys[j] in plan;
    }
  }

  /** Each planned order is the one for some target. */
  lemma {:induction false} PlannedForSomeTarget(b: Brief, v: View, p: Planned)
    requires p in Plan(b, v)
    ensures exists t :: t in b.targets && PlannedFor(b, v, t, p)
    decreases |b.targets|
  {
    if p in Plan(b.Rest(), v) {
      PlannedForSomeTarget(b.Rest(), v, p);
      var t :| t in b.Rest().targets && PlannedFor(b.Rest(), v, t, p);
      assert PlannedFor(b, v, t, p);
    } else {
      assert PlannedFor(b, v, b.targets[0], p);
    }
  }

  lemma {:induction false} PlanIsDistinct(b: Brief, v: View)
    requires b.Valid()
    ensures Distinct(Plan(b, v))
    decreases |b.targets|
  {
    if b.targets != [] {
      PlanIsDistinct(b.Rest(), v);
      var tail := Plan(b.Rest(), v);
      forall j | 0 <= j < |tail| ensures tail[j].request.symbol != b.targets[0].symbol {
        PlannedForSomeTarget(b.Rest(), v, tail[j]);
      }
    }
  }

  /** One name's share of the plan: gone if settled, otherwise the same order under a new identifier. */
  lemma OneNameReplans(k: Terms, t: Target, current: real, k2: Terms, current2: real, gone: set<string>)
    requires k2 == k.(second := k2.second)
    requires if t.symbol in gone then PlanOne(k2, t, current2) == None else current2 == current
    ensures OneOrNone(PlanOne(k2, t, current2))
      == Restamped(Without(OneOrNone(PlanOne(k, t, current)), gone), k2.second)
  {
    var one := OneOrNone(PlanOne(k, t, current));
    if one != [] {
      assert one[1..] == [];
      assert Without(one, gone) == if t.symbol in gone then [] else one;
      assert Restamped(one, k2.second) == [one[0].(request := one[0].request.(id := Rebalance(k2.second, t.symbol)))];
    }
  }

  /** The planner looks at one name at a time: settling some names drops exactly their orders. */
  lemma {:induction false} SettledNamesDropOut(b: Brief, v: View, b2: Brief, v2: View, gone: set<string>)
    requires b2 == b.At(b2.terms.second)
    requires forall t :: t in b.targets ==>
      if t.symbol in gone then PlanOne(b2.terms, t, Effective(v2, t.symbol)) == None
      else Effective(v2, t.symbol) == Effective(v, t.symbol)
    ensures Plan(b2, v2) == Restamped(Without(Plan(b, v), gone), b2.terms.second)
    decreases |b.targets|
  {
    if b.targets != [] {
      var t := b.targets[0];
      var head := OneOrNone(PlanOne(b.terms, t, Effective(v, t.symbol)));
      assert forall u :: u in b.Rest().targets ==> u in b.targets;
      SettledNamesDropOut(b.Rest(), v, b2.Rest(), v2, gone);
      OneNameReplans(b.terms, t, Effective(v, t.symbol), b2.terms, Effective(v2, t.symbol), gone);
      WithoutSplits(head, Plan(b.Rest(), v), gone);
      RestampedSplits(Without(head, gone), Without(Plan(b.Rest(), v), gone), b2.terms.second);
    }
  }

  // ------------------------------------------------------------- replanning

  function AcceptedSymbols(orders: seq<Planned>, fates: seq<Fate>): set<string>
    requires |fates| == |orders|
  {
    set i | 0 <= i < |orders| && fates[i].WasAccepted() :: orders[i].request.symbol
  }

  /** The signed quantity accepted for a symbol. */
  function AcceptedQty(orders: seq<Planned>, fates: seq<Fate>, symbol: string): real
    requires |fates| == |orders|
  {
    if orders == [] then 0.0
    else
      var r := orders[|orders| - 1].request;
      AcceptedQty(orders[..|orders| - 1], fates[..|fates| - 1], symbol) +
      if fates[|fates| - 1].WasAccepted() && r.symbol == symbol then Signed(r.side, r.qty) else 0.0
  }

  /** Submission moves the effective holding of a name by what was accepted for it. */
  lemma {:induction false} SubmissionMovesEffective(
      orders: seq<Planned>, slots: int, fates: seq<Fate>, views: seq<View>, symbol: string)
    requires Submission(orders, slots, fates, views) && Valid(views[0])
    ensures Valid(views[|orders|])
    ensures Effective(views[|orders|], symbol) == Effective(views[0], symbol) + AcceptedQty(orders, fates, symbol)
  {
    if orders != [] {
      var n := |orders| - 1;
      SubmissionPrefix(orders, slots, fates, views, n);
      SubmissionMovesEffective(orders[..n], slots, fates[..n], views[..n + 1], symbol);
      assert TurnAt(orders, slots, fates, views, n);
      if fates[n].Answered? {
        SubmitMovesEffective(views[n], orders[n].request, fates[n].outcome, views[n + 1], symbol);
      }
    }
  }

  lemma {:induction false} ActivityKeepsEffective(views: seq<View>, symbol: string)
    requires Activity(views) && Valid(views[0])
    ensures Effective(views[|views| - 1], symbol) == Effective(views[0], symbol)
  {
    if |views| > 1 {
      var id, amount, price :| FillStep(views[0], id, amount, price, views[1]);
      FillKeepsValid(views[0], id, amount, price, views[1]);
      FillKeepsEffective(views[0], id, amount, price, views[1], symbol);
      ActivityKeepsEffective(views[1..], symbol);
    }
  }

  /** With no name twice, what was accepted for a name is its one order or nothing. */
  lemma {:induction false} AcceptedQtyIsOneOrder(orders: seq<Planned>, fates: seq<Fate>, symbol: string)
    requires |fates| == |orders| && Distinct(orders)
    ensures symbol !in AcceptedSymbols(orders, fates) ==> AcceptedQty(orders, fates, symbol) == 0.0
    ensures forall i :: 0 <= i < |orders| && fates[i].WasAccepted() && orders[i].request.symbol == symbol ==>
      AcceptedQty(orders, fates, symbol) == Signed(orders[i].request.side, orders[i].request.qty)
  {
    if orders != [] {
      var n := |orders| - 1;
      AcceptedQtyIsOneOrder(orders[..n], fates[..n], symbol);
      var before := AcceptedSymbols(orders[..n], fates[..n]);
      assert symbol in before ==> symbol in AcceptedSymbols(orders, fates) by {
        if symbol in before {
          var i :| 0 <= i < n && fates[..n][i].WasAccepted() && orders[..n][i].request.symbol == symbol;
          assert fates[i].WasAccepted() && orders[i].request.symbol == symbol;
        }
      }
      if fates[n].WasAccepted() && orders[n].request.symbol == symbol {
        assert symbol in AcceptedSymbols(orders, fates);
      }
    }
  }

  lemma {:induction false} UnacceptedIsWithout(orders: seq<Planned>, fates: seq<Fate>, gone: set<string>)
    requires |fates| == |orders|
    requires forall i :: 0 <= i < |orders| ==> (fates[i].WasAccepted() <==> orders[i].request.symbol in gone)
    ensures Unaccepted(orders, fates) == Without(orders, gone)
  {
    if orders != [] {
      UnacceptedIsWithout(orders[1..], fates[1..], gone);
    }
  }

  /** The accepted order of a target's name is the one planned for that target. */
  lemma AcceptedOrderOfTarget(b: Brief, v: View, fates: seq<Fate>, t: Target) returns (i: nat)
    requires b.Valid() && t in b.targets
    requires |fates| == |SellsFirst(Plan(b, v))|
    requires t.symbol in AcceptedSymbols(SellsFirst(Plan(b, v)), fates)
    ensures i < |fates| && fates[i].WasAccepted() && PlannedFor(b, v, t, SellsFirst(Plan(b, v))[i])
  {
    var orders := SellsFirst(Plan(b, v));
    i :| 0 <= i < |orders| && fates[i].WasAccepted() && orders[i].request.symbol == t.symbol;
    PlanIsDistinct(b, v);
    SellsFirstIsAPermutation(Plan(b, v));
    assert orders[i] in orders;
    PlannedForSomeTarget(b, v, orders[i]);
    var u :| u in b.targets && PlannedFor(b, v, u, orders[i]);
    assert u == t;
  }

  /** A run of the submission loop on the plan of a brief. */
  ghost predicate Run(b: Brief, slots: int, fates: seq<Fate>, views: seq<View>) {
    && b.Valid()
    && |views| > 0 && Valid(views[0])
    && Submission(SellsFirst(Plan(b, views[0])), slots, fates, views)
  }

  lemma OrdersAreDistinct(b: Brief, v: View)
    requires b.Valid()
    ensures Distinct(SellsFirst(Plan(b, v)))
  {
    PlanIsDistinct(b, v);
    SellsFirstIsAPermutation(Plan(b, v));
  }

  /** After the run, a name of which nothing was accepted stands where it stood. */
  lemma OtherNameStands(b: Brief, slots: int, fates: seq<Fate>, views: seq<View>, symbol: string)
    requires Run(b, slots, fates, views)
    requires symbol !in AcceptedSymbols(SellsFirst(Plan(b, views[0])), fates)
    ensures Effective(views[|views| - 1], symbol) == Effective(views[0], symbol)
  {
    var orders := SellsFirst(Plan(b, views[0]));
    OrdersAreDistinct(b, views[0]);
    SubmissionMovesEffective(orders, slots, fates, views, symbol);
    AcceptedQtyIsOneOrder(orders, fates, symbol);
  }

  /** What was accepted for a target's name is the order planned for that target. */
  lemma AcceptedIsWhatWasPlanned(b: Brief, v: View, fates: seq<Fate>, t: Target) returns (p: Planned)
    requires b.Valid() && t in b.targets
    requires |fates| == |SellsFirst(Plan(b, v))|
    requires t.symbol in AcceptedSymbols(SellsFirst(Plan(b, v)), fates)
    ensures PlannedFor(b, v, t, p)
    ensures AcceptedQty(SellsFirst(Plan(b, v)), fates, t.symbol) == Signed(p.request.side, p.request.qty)
  {
    OrdersAreDistinct(b, v);
    var i := AcceptedOrderOfTarget(b, v, fates, t);
    p := SellsFirst(Plan(b, v))[i];
    AcceptedQtyIsOneOrder(SellsFirst(Plan(b, v)), fates, t.symbol);
  }

  /** After the run, an accepted name has moved by the whole of its planned order. */
  lemma AcceptedNameMoves(b: Brief, slots: int, fates: seq<Fate>, views: seq<View>, t: Target) returns (p: Planned)
    requires Run(b, slots, fates, views) && t in b.targets
    requires t.symbol in AcceptedSymbols(SellsFirst(Plan(b, views[0])), fates)
    ensures PlannedFor(b, views[0], t, p)
    ensures Effective(views[|views| - 1], t.symbol) ==
      Effective(views[0], t.symbol) + Signed(p.request.side, p.request.qty)
  {
    p := AcceptedIsWhatWasPlanned(b, views[0], fates, t);
    SubmissionMovesEffective(SellsFirst(Plan(b, views[0])), slots, fates, views, t.symbol);
  }

  /** After the run, a name with an accepted order asks for nothing more. */
  lemma AcceptedNameSettles(b: Brief, slots: int, fates: seq<Fate>, views: seq<View>, t: Target)
    requires Run(b, slots, fates, views) && t in b.targets
    requires t.symbol in AcceptedSymbols(SellsFirst(Plan(b, views[0])), fates)
    ensures PlanOne(b.terms, t, Effective(views[|views| - 1], t.symbol)) == None
  {
    var p := AcceptedNameMoves(b, slots, fates, views, t);
    AcceptedNameIsDone(b.terms, t, Effective(views[0], t.symbol), p, Effective(views[|views| - 1], t.symbol));
  }

  lemma {:induction false} EveryOrderIsInThePlan(b: Brief, v: View, t: Target, p: Planned)
    requires t in b.targets && PlannedFor(b, v, t, p)
    ensures p in Plan(b, v)
    decreases |b.targets|
  {
    if t != b.targets[0] {
      var i :| 0 <= i < |b.targets| && b.targets[i] == t;
      assert b.Rest().targets[i - 1] == t;
      assert PlannedFor(b.Rest(), v, t, p);
      EveryOrderIsInThePlan(b.Rest(), v, t, p);
    }
  }

  /** If every order was accepted, so was that of a name that has one. */
  lemma PlannedNameIsAccepted(b: Brief, v: View, fates: seq<Fate>, t: Target, p: Planned)
    requires b.Valid() && t in b.targets && PlannedFor(b, v, t, p)
    requires |fates| == |SellsFirst(Plan(b, v))| && AllAccepted(fates)
    ensures t.symbol in AcceptedSymbols(SellsFirst(Plan(b, v)), fates)
  {
    EveryOrderIsInThePlan(b, v, t, p);
    PlanIsDistinct(b, v);
    SellsFirstIsAPermutation(Plan(b, v));
    var i :| 0 <= i < |fates| && SellsFirst(Plan(b, v))[i] == p;
    assert fates[i].WasAccepted();
  }

  ghost predicate AllAccepted(fates: seq<Fate>) {
    forall i :: 0 <= i < |fates| ==> fates[i].WasAccepted()
  }

  /** Where a name stands after a rebalance: at its goal, or where it stood, for a reason. */
  ghost predicate EndsUp(k: Terms, t: Target, held: real, after: real, accepted: bool) {
    if t.symbol !in k.prices || k.prices[t.symbol] <= 0.0 then after == held
    else
      var goal := Times(t.weight, k.deployable) / k.prices[t.symbol];
      if Tolerated(held, goal, k.band) || Negligible(goal - held, k.prices[t.symbol], k.fractional) then after == held
      else Arrives(held, after, goal, k.fractional) || (!accepted && after == held)
  }

  /**
   * Whatever becomes of its orders, a rebalance leaves each target where it stood or takes it to its goal; and if all
   * are accepted it takes every priced one there but those inside the band or too little to trade.
   */
  lemma NameEndsUp(b: Brief, slots: int, fates: seq<Fate>, views: seq<View>, t: Target)
    requires Run(b, slots, fates, views) && t in b.targets
    ensures EndsUp(b.terms, t, Effective(views[0], t.symbol), Effective(views[|views| - 1], t.symbol),
                   AllAccepted(fates))
  {
    var v := views[0];
    PlanOneIsSized(b.terms, t, Effective(v, t.symbol));
    if t.symbol in AcceptedSymbols(SellsFirst(Plan(b, v)), fates) {
      var p := AcceptedNameMoves(b, slots, fates, views, t);
    } else {
      OtherNameStands(b, slots, fates, views, t.symbol);
      var one := PlanOne(b.terms, t, Effective(v, t.symbol));
      if one.Some? && AllAccepted(fates) {
        PlannedNameIsAccepted(b, v, fates, t, one.value);
      }
    }
  }

  /** A name that is no target is not moved. */
  lemma UntargetedNameStands(b: Brief, slots: int, fates: seq<Fate>, views: seq<View>, symbol: string)
    requires Run(b, slots, fates, views) && forall t :: t in b.targets ==> t.symbol != symbol
    ensures Effective(views[|views| - 1], symbol) == Effective(views[0], symbol)
  {
    var orders := SellsFirst(Plan(b, views[0]));
    PlanIsDistinct(b, views[0]);
    SellsFirstIsAPermutation(Plan(b, views[0]));
    forall i | 0 <= i < |orders| ensures orders[i].request.symbol != symbol {
      assert orders[i] in orders;
      PlannedForSomeTarget(b, views[0], orders[i]);
    }
    OtherNameStands(b, slots, fates, views, symbol);
  }

  // ------------------------------------------------------ in which order

  /** The one name comes before the other among the targets. */
  ghost predicate Precedes(targets: seq<Target>, first: string, second: string) {
    exists m, n :: 0 <= m < n < |targets| && targets[m].symbol == first && targets[n].symbol == second
  }

  ghost predicate InTargetOrder(targets: seq<Target>, orders: seq<Planned>) {
    forall i, j :: 0 <= i < j < |orders| ==>
      Precedes(targets, orders[i].request.symbol, orders[j].request.symbol)
  }

  lemma PrecedesInRest(b: Brief, first: string, second: string)
    requires b.targets != [] && Precedes(b.Rest().targets, first, second)
    ensures Precedes(b.targets, first, second)
  {
    var m, n :| 0 <= m < n < |b.Rest().targets|
      && b.Rest().targets[m].symbol == first && b.Rest().targets[n].symbol == second;
    assert b.targets[m + 1].symbol == first && b.targets[n + 1].symbol == second;
  }

  lemma {:induction false} PlanIsInTargetOrder(b: Brief, v: View)
    ensures InTargetOrder(b.targets, Plan(b, v))
    decreases |b.targets|
  {
    if b.targets != [] {
      PlanIsInTargetOrder(b.Rest(), v);
      var head := OneOrNone(PlanOne(b.terms, b.targets[0], Effective(v, b.targets[0].symbol)));
      var tail := Plan(b.Rest(), v);
      forall i | 0 <= i < |tail| ensures Precedes(b.targets, b.targets[0].symbol, tail[i].request.symbol) {
        FirstPrecedes(b, v, tail[i]);
      }
      forall i, j | 0 <= i < j < |tail| ensures Precedes(b.targets, tail[i].request.symbol, tail[j].request.symbol) {
        PrecedesInRest(b, tail[i].request.symbol, tail[j].request.symbol);
      }
      HeadAndTailInOrder(b.targets, head, tail);
    }
  }

  lemma HeadAndTailInOrder(targets: seq<Target>, head: seq<Planned>, tail: seq<Planned>)
    requires |head| <= 1 && InTargetOrder(targets, tail)
    requires head != [] ==> forall i :: 0 <= i < |tail| ==>
      Precedes(targets, head[0].request.symbol, tail[i].request.symbol)
    ensures InTargetOrder(targets, head + tail)
  {
  }

  lemma FirstPrecedes(b: Brief, v: View, p: Planned)
    requires b.targets != [] && p in Plan(b.Rest(), v)
    ensures Precedes(b.targets, b.targets[0].symbol, p.request.symbol)
  {
    PlannedForSomeTarget(b.Rest(), v, p);
    var t :| t in b.Rest().targets && PlannedFor(b.Rest(), v, t, p);
    var i :| 0 <= i < |b.Rest().targets| && b.Rest().targets[i] == t;
    assert b.targets[i + 1].symbol == p.request.symbol;
  }

  lemma {:induction false} OneSideInTargetOrder(targets: seq<Target>, plan: seq<Planned>, side: Side)
    requires InTargetOrder(targets, plan)
    ensures InTargetOrder(targets, OnSide(plan, side))
  {
    if plan != [] {
      OneSideInTargetOrder(targets, plan[1..], side);
      OnSideKeepsElements(plan[1..], side);
      var tail := OnSide(plan[1..], side);
      forall j | 0 <= j < |tail| ensures Precedes(targets, plan[0].request.symbol, tail[j].request.symbol) {
        HeadPrecedes(targets, plan, tail[j]);
      }
    }
  }

  lemma HeadPrecedes(targets: seq<Target>, plan: seq<Planned>, p: Planned)
    requires InTargetOrder(targets, plan) && plan != [] && p in plan[1..]
    ensures Precedes(targets, plan[0].request.symbol, p.request.symbol)
  {
    var i :| 0 <= i < |plan[1..]| && plan[1..][i] == p;
    assert plan[i + 1] == p;
  }

  /** The order of submission: sells before buys, and each side as the targets come. */
  lemma SubmittedInOrder(b: Brief, v: View, i: nat, j: nat)
    requires i < j < |SellsFirst(Plan(b, v))|
    ensures var first, second := SellsFirst(Plan(b, v))[i].request, SellsFirst(Plan(b, v))[j].request;
      if first.side == second.side then Precedes(b.targets, first.symbol, second.symbol)
      else first.side == Sell && second.side == Buy
  {
    var plan := Plan(b, v);
    var sells, buys := OnSide(plan, Sell), OnSide(plan, Buy);
    PlanIsInTargetOrder(b, v);
    OneSideInTargetOrder(b.targets, plan, Sell);
    OneSideInTargetOrder(b.targets, plan, Buy);
    OnSideKeepsElements(plan, Sell);
    OnSideKeepsElements(plan, Buy);
    assert i < |sells| ==> sells[i] in sells;
    assert j < |sells| ==> sells[j] in sells;
    assert i >= |sells| ==> buys[i - |sells|] in buys;
    assert j >= |sells| ==> buys[j - |sells|] in buys;
  }

  lemma AcceptedByIndex(orders: seq<Planned>, fates: seq<Fate>)
    requires |fates| == |orders| && Distinct(orders)
    ensures forall i :: 0 <= i < |orders| ==>
      (fates[i].WasAccepted() <==> orders[i].request.symbol in AcceptedSymbols(orders, fates))
  {
  }

  /**
   * Exact replanning. Whatever the broker made of each order of a rebalance, and whatever fills
   * came after it, a second rebalance with the same inputs plans exactly the orders that were
   * not accepted, in the order they were first tried.
   */
  lemma ExactReplanning(
      b: Brief, second: int, slots: int, fates: seq<Fate>, views: seq<View>, later: seq<View>)
    requires Run(b, slots, fates, views)
    requires Activity(later) && later[0] == views[|views| - 1]
    ensures SellsFirst(Plan(b.At(second), later[|later| - 1]))
      == Restamped(Unaccepted(SellsFirst(Plan(b, views[0])), fates), second)
  {
    var plan := Plan(b, views[0]);
    var orders := SellsFirst(plan);
    var gone := AcceptedSymbols(orders, fates);
    RemainingPlan(b, second, slots, fates, views, later);
    SellsFirstOfTheRest(plan, gone, second);
    OrdersAreDistinct(b, views[0]);
    AcceptedByIndex(orders, fates);
    UnacceptedIsWithout(orders, fates, gone);
  }

  lemma RemainingPlan(b: Brief, second: int, slots: int, fates: seq<Fate>, views: seq<View>, later: seq<View>)
    requires Run(b, slots, fates, views)
    requires Activity(later) && later[0] == views[|views| - 1]
    ensures var plan := Plan(b, views[0]);
      Plan(b.At(second), later[|later| - 1])
      == Restamped(Without(plan, AcceptedSymbols(SellsFirst(plan), fates)), second)
  {
    var v, v2, b2 := views[0], later[|later| - 1], b.At(second);
    var orders := SellsFirst(Plan(b, v));
    var gone := AcceptedSymbols(orders, fates);
    SubmissionMovesEffective(orders, slots, fates, views, "");
    forall t | t in b.targets
      ensures if t.symbol in gone then PlanOne(b2.terms, t, Effective(v2, t.symbol)) == None
              else Effective(v2, t.symbol) == Effective(v, t.symbol)
    {
      ActivityKeepsEffective(later, t.symbol);
      if t.symbol in gone {
        AcceptedNameSettles(b, slots, fates, views, t);
      } else {
        OtherNameStands(b, slots, fates, views, t.symbol);
      }
    }
    SettledNamesDropOut(b, v, b2, v2, gone);
  }
}
