/** The execution engine: gates, then planning against effective holdings, then sell-first submission. */
module Engine {
  import opened Prelude
  import opened Sums
  import opened Orders
  import opened BrokerProtocol
  import opened Planning
  import opened RiskLimits
  import opened Guardrails
  import opened Venues
  import opened Bitemporal
  import opened Drawdown
  import Governor

  datatype Settings = Settings(
    live: bool, liveAllowed: bool, maxDrawdownHalt: real, maxDailyLoss: real,
    capitalCeiling: real, band: real, fractional: bool, maxOrders: int)

  /** How a rebalance ends: an exception, or the orders it placed. */
  datatype Result =
    | LiveRefused
    | Halted(reason: string)
    | Breach(symbol: string, verdict: Verdict)
    | Placed(orders: seq<Request>)

  const MICROS_PER_SECOND := 1_000_000

  /** The day's loss against the previous close has hit its limit; a limit of zero switches the rule off. */
  predicate BadDay(settings: Settings, equity: real, lastEquity: real) {
    settings.maxDailyLoss > 0.0 && lastEquity > 0.0 && equity / lastEquity - 1.0 <= -settings.maxDailyLoss
  }

  /** The day is bad exactly if the rule is on and no more than the allowed part of the last close is left. */
  lemma BadDayIff(settings: Settings, equity: real, lastEquity: real)
    ensures BadDay(settings, equity, lastEquity) <==>
      && settings.maxDailyLoss > 0.0 && lastEquity > 0.0
      && equity <= Times(1.0 - settings.maxDailyLoss, lastEquity)
  {
    if lastEquity > 0.0 {
      FellIff(equity, lastEquity, settings.maxDailyLoss);
    }
  }

  /** The items of a dictionary, put back together. */
  function WeightsOf(targets: seq<Target>): Weights {
    if targets == [] then map[]
    else
      var last := targets[|targets| - 1];
      WeightsOf(targets[..|targets| - 1])[last.symbol := last.weight]
  }

  lemma {:induction false} WeightsAre(targets: seq<Target>)
    requires NoSymbolTwice(targets)
    ensures forall i :: 0 <= i < |targets| ==>
      targets[i].symbol in WeightsOf(targets) && WeightsOf(targets)[targets[i].symbol] == targets[i].weight
    ensures forall s :: s in WeightsOf(targets) ==> exists i :: 0 <= i < |targets| && targets[i].symbol == s
  {
    if targets != [] {
      var init, last := targets[..|targets| - 1], targets[|targets| - 1];
      WeightsAre(init);
      forall s | s in WeightsOf(targets) ensures exists i :: 0 <= i < |targets| && targets[i].symbol == s {
        if s in WeightsOf(init) {
          var i :| 0 <= i < |init| && init[i].symbol == s;
          assert targets[i].symbol == s;
        } else {
          assert targets[|targets| - 1].symbol == s;
        }
      }
    }
  }

  ghost predicate NoSymbolTwice(targets: seq<Target>) {
    forall i, j :: 0 <= i < j < |targets| ==> targets[i].symbol != targets[j].symbol
  }

  function BriefFor(settings: Settings, targets: seq<Target>, prices: map<string, real>, equity: real,
                    asOf: int): Brief
  {
    Brief(targets, Terms(
      prices, Min(equity, settings.capitalCeiling), settings.fractional, settings.band, asOf / MICROS_PER_SECOND))
  }

  /** The orders the caller gets back: those the broker answered without raising. */
  function Returned(orders: seq<Planned>, fates: seq<Fate>): seq<Request>
    requires |fates| == |orders|
  {
    if orders == [] then []
    else
      var n := |orders| - 1;
      Returned(orders[..n], fates[..n]) +
      if fates[n].Answered? && !(fates[n].outcome.Refused? && fates[n].outcome.raised) then [orders[n].request] else []
  }

  /** Returned is exactly what the broker was sent and answered without raising. */
  lemma {:induction false} ReturnedIff(orders: seq<Planned>, fates: seq<Fate>, r: Request)
    requires |fates| == |orders|
    ensures r in Returned(orders, fates) <==>
      exists i :: WellAt(orders, fates, i, r)
  {
    if orders != [] {
      var n := |orders| - 1;
      ReturnedIff(orders[..n], fates[..n], r);
      forall i | i != n ensures WellAt(orders[..n], fates[..n], i, r) <==> WellAt(orders, fates, i, r) {
      }
      assert WellAt(orders, fates, n, r) <==> orders[n].request == r && AnsweredWell(fates[n]);
    }
  }

  ghost predicate WellAt(orders: seq<Planned>, fates: seq<Fate>, i: int, r: Request)
    requires |fates| == |orders|
  {
    0 <= i < |orders| && orders[i].request == r && AnsweredWell(fates[i])
  }

  /** The broker was sent the order and raised no error. */
  predicate AnsweredWell(fate: Fate) {
    fate.Answered? && (fate.outcome.Refused? ==> !fate.outcome.raised)
  }

  function LookUp(positions: map<string, real>, symbol: string): real {
    if symbol in positions then positions[symbol] else 0.0
  }

  /** The newest row: the append-only log's latest state. */
  method FindNewest(rows: Rows) returns (newest: Observation)
    requires rows != []
    ensures newest == NewestEvent(rows)
  {
    newest := rows[0];
    for n := 1 to |rows|
      invariant newest == NewestEvent(rows[..n])
    {
      assert rows[..n + 1][..n] == rows[..n];
      if rows[n].eventTime > newest.eventTime {
        newest := rows[n];
      }
    }
    assert rows[..|rows|] == rows;
  }

  /** The persisted peak and trip, if a non-zero peak is on record. */
  method LoadDrawdownState(store: InMemoryStore, now: int) returns (peak: Option<real>, tripped: bool)
    ensures (if peak.Some? then Breaker(peak, tripped) else FRESH) == Load(store.rows, now)
  {
    var rows := store.Query(now, OfDataset(STATE_DATASET));
    if rows == [] {
      return None, false;
    }
    var latest := FindNewest(rows);
    match latest.value {
      case Drawdown(Some(p), t) =>
        return (if p == 0.0 then None else Some(p)), t;
      case _ =>
        return None, false;
    }
  }

  /** Holdings with still-open orders counted in. */
  method EffectiveHoldings(broker: Venue) returns (positions: map<string, real>)
    ensures forall s: string :: LookUp(positions, s) == Effective(broker.View(), s)
  {
    positions := broker.GetPositions();
    var pending := broker.GetOpenOrders();
    assert forall s: string :: PendingTerms(pending, s) - {} == PendingTerms(pending, s);
    while pending != map[]
      invariant forall s: string ::
        LookUp(positions, s) + Total(PendingTerms(pending, s)) == Effective(broker.View(), s)
      decreases |pending|
    {
      var id :| id in pending;
      var w := pending[id];
      var signed := Signed(w.side, w.qty - w.filled);
      forall s: string
        ensures Total(PendingTerms(pending, s))
          == (if w.symbol == s then signed else 0.0) + Total(PendingTerms(pending - {id}, s))
      {
        TotalRemove(PendingTerms(pending, s), id);
        assert PendingTerms(pending, s) - {id} == PendingTerms(pending - {id}, s);
      }
      assert (pending - {id}).Keys == pending.Keys - {id};
      assert |pending.Keys| == |pending| && |(pending - {id}).Keys| == |pending - {id}|;
      positions := positions[w.symbol := LookUp(positions, w.symbol) + signed];
      pending := pending - {id};
    }
    assert forall s: string :: PendingTerms(pending, s) == map[];
  }

  lemma {:induction false} PlanSplits(b: Brief, v: View, n: nat)
    requires n < |b.targets|
    ensures Plan(Brief(b.targets[..n + 1], b.terms), v)
      == Plan(Brief(b.targets[..n], b.terms), v)
        + OneOrNone(PlanOne(b.terms, b.targets[n], Effective(v, b.targets[n].symbol)))
    decreases n
  {
    if n == 0 {
      assert b.targets[..1][1..] == [];
    } else {
      PlanSplits(b.Rest(), v, n - 1);
      RestOfPrefix(b, n + 1);
      RestOfPrefix(b, n);
    }
  }

  lemma RestOfPrefix(b: Brief, n: nat)
    requires 0 < n <= |b.targets|
    ensures Brief(b.targets[..n], b.terms).Rest() == Brief(b.Rest().targets[..n - 1], b.terms)
    ensures b.targets[..n][0] == b.targets[0]
  {
    assert b.targets[..n][1..] == b.targets[1..][..n - 1];
  }

  /** Sizes the order for one target, skipping unpriced names, drifts inside the band, and dust. */
  method SizeOrder(k: Terms, t: Target, current: real) returns (planned: Option<Planned>)
    ensures planned == PlanOne(k, t, current)
    ensures Sized(k, t, current, planned)
  {
    PlanOneIsSized(k, t, current);
    if !k.Priced(t.symbol) {
      return None;
    }
    var price := k.prices[t.symbol];
    var desired := Times(t.weight, k.deployable) / price;
    var delta := desired - current;
    if k.band > 0.0 && current != 0.0 && desired != 0.0 && Abs(delta) < Times(k.band, Abs(desired)) {
      return None;
    }
    var qty := Abs(delta);
    if !k.fractional {
      qty := qty.Floor as real;
    }
    if Times(qty, price) < 1.0 {
      return None;
    }
    var side := if delta > 0.0 then Buy else Sell;
    return Some(Planned(Request(Rebalance(k.second, t.symbol), t.symbol, side, qty, Market, None), price));
  }

  /** Each target that has to have an order has it, and there are no other orders. */
  ghost predicate Sizes(b: Brief, v: View, plan: seq<Planned>) {
    && (forall t :: t in b.targets ==> SizedIn(b, v, plan, t))
    && (forall p :: p in plan ==> SomeTargets(b, v, p))
  }

  ghost predicate SizedIn(b: Brief, v: View, plan: seq<Planned>, t: Target) {
    exists o :: Sized(b.terms, t, Effective(v, t.symbol), o) && (o.Some? ==> o.value in plan)
  }

  ghost predicate SomeTargets(b: Brief, v: View, p: Planned) {
    exists t :: t in b.targets && Sized(b.terms, t, Effective(v, t.symbol), Some(p))
  }

  lemma PlanSizes(b: Brief, v: View)
    ensures Sizes(b, v, Plan(b, v))
  {
    forall t | t in b.targets ensures SizedIn(b, v, Plan(b, v), t) {
      var o := PlanOne(b.terms, t, Effective(v, t.symbol));
      PlanOneIsSized(b.terms, t, Effective(v, t.symbol));
      if o.Some? {
        EveryOrderIsInThePlan(b, v, t, o.value);
      }
    }
    forall p | p in Plan(b, v) ensures SomeTargets(b, v, p) {
      PlannedForSomeTarget(b, v, p);
      var t :| t in b.targets && PlannedFor(b, v, t, p);
      PlanOneIsSized(b.terms, t, Effective(v, t.symbol));
    }
  }

  /** One order per target that needs one, against effective holdings, in target order. */
  method BuildPlan(b: Brief, broker: Venue) returns (planned: seq<Planned>)
    ensures planned == Plan(b, broker.View())
    ensures Sizes(b, broker.View(), planned) && InTargetOrder(b.targets, planned)
  {
    PlanSizes(b, broker.View());
    PlanIsInTargetOrder(b, broker.View());
    var positions := EffectiveHoldings(broker);
    planned := [];
    for n := 0 to |b.targets|
      invariant planned == Plan(Brief(b.targets[..n], b.terms), broker.View())
    {
      PlanSplits(b, broker.View(), n);
      var one := SizeOrder(b.terms, b.targets[n], LookUp(positions, b.targets[n].symbol));
      if one.Some? {
        planned := planned + [one.value];
      }
    }
    assert b.targets[..|b.targets|] == b.targets;
  }

  lemma {:induction false} SlotsUsedOfAppend(fates: seq<Fate>, fate: Fate)
    ensures SlotsUsed(fates + [fate]) == SlotsUsed(fates) + if fate.Answered? then 1 else 0
  {
    if fates != [] {
      assert (fates + [fate])[1..] == fates[1..] + [fate];
      SlotsUsedOfAppend(fates[1..], fate);
    }
  }

  /** One more turn extends a run of the submission loop. */
  lemma SubmissionExtends(orders: seq<Planned>, slots: int, fates: seq<Fate>, views: seq<View>, p: Planned, fate: Fate,
                          v: View)
    requires Submission(orders, slots, fates, views)
    requires Turn(views[|orders|], p, |orders| > 0 && fates[|orders| - 1] == NotReached, slots - SlotsUsed(fates),
                  fate, v)
    ensures Submission(orders + [p], slots, fates + [fate], views + [v])
    ensures SlotsUsed(fates + [fate]) == SlotsUsed(fates) + if fate.Answered? then 1 else 0
  {
    var orders', fates', views' := orders + [p], fates + [fate], views + [v];
    SlotsUsedOfAppend(fates, fate);
    forall i | 0 <= i < |orders'| ensures TurnAt(orders', slots, fates', views', i) {
      if i < |orders| {
        assert TurnAt(orders, slots, fates, views, i);
        assert fates'[..i] == fates[..i];
      } else {
        assert fates'[..i] == fates;
      }
    }
  }

  /** Submits in order: malformed orders are skipped, refused ones too, and the rate cap stops the rest. */
  method SubmitAll(planned: seq<Planned>, broker: Venue, limiter: OrderRateLimiter)
    returns (placed: seq<Request>, ghost fates: seq<Fate>, ghost views: seq<View>)
    requires broker.Valid()
    modifies broker, limiter
    ensures broker.Valid() && broker.equity == old(broker.equity)
    ensures Submission(planned, old(limiter.SlotsLeft()), fates, views)
    ensures views[0] == old(broker.View()) && views[|views| - 1] == broker.View()
    ensures placed == Returned(planned, fates)
  {
    placed, fates, views := [], [], [broker.View()];
    ghost var slots := limiter.SlotsLeft();
    var n := 0;
    var capped := false;
    while n < |planned|
      invariant n <= |planned| && broker.Valid() && broker.equity == old(broker.equity)
      invariant Submission(planned[..n], slots, fates, views)
      invariant limiter.SlotsLeft() == slots - SlotsUsed(fates)
      invariant capped <==> n > 0 && fates[n - 1] == NotReached
      invariant views[0] == old(broker.View()) && views[n] == broker.View()
      invariant placed == Returned(planned[..n], fates)
    {
      var p := planned[n];
      assert planned[..n + 1] == planned[..n] + [p];
      ghost var fate: Fate;
      if capped {
        fate := NotReached;  // the loop was left at the cap: nothing more happens
      } else if !Sane(p.request, p.price) {
        fate := Malformed;
      } else {
        var ok := limiter.Allow();
        if !ok {
          capped := true;
          fate := NotReached;
        } else {
          var outcome := broker.SubmitOrder(p.request);
          fate := Answered(outcome);
          if !(outcome.Refused? && outcome.raised) {
            placed := placed + [p.request];
          }
        }
      }
      SubmissionExtends(planned[..n], slots, fates, views, p, fate, broker.View());
      ReturnedExtends(planned[..n], fates, p, fate);
      fates, views := fates + [fate], views + [broker.View()];
      n := n + 1;
    }
    assert planned[..n] == planned;
  }

  lemma ReturnedExtends(orders: seq<Planned>, fates: seq<Fate>, p: Planned, fate: Fate)
    requires |fates| == |orders|
    ensures Returned(orders + [p], fates + [fate]) == Returned(orders, fates) +
      if fate.Answered? && !(fate.outcome.Refused? && fate.outcome.raised) then [p.request] else []
  {
    assert (orders + [p])[..|orders|] == orders && (fates + [fate])[..|orders|] == fates;
  }

  /** The verdict on one name of a book, against the rest of it. */
  ghost predicate NameAllowed(weights: Weights, symbol: string, limits: Limits)
    requires symbol in weights
  {
    CheckVerdict(weights[symbol], (weights - {symbol})[symbol := weights[symbol]], limits) == Allowed
  }

  method CheckName(weights: Weights, t: Target, limits: Limits) returns (verdict: Verdict)
    requires t.symbol in weights && weights[t.symbol] == t.weight
    ensures verdict == Allowed <==> NameAllowed(weights, t.symbol, limits)
  {
    verdict := CheckOrder(t.symbol, t.weight, weights - {t.symbol}, limits);
  }

  /** The first n targets are allowed. */
  ghost predicate AllowedUpTo(targets: seq<Target>, n: nat, weights: Weights, limits: Limits)
    requires n <= |targets|
  {
    forall i :: 0 <= i < n ==> targets[i].symbol in weights && NameAllowed(weights, targets[i].symbol, limits)
  }

  lemma OneMoreAllowed(targets: seq<Target>, n: nat, weights: Weights, limits: Limits)
    requires n < |targets| && AllowedUpTo(targets, n, weights, limits)
    requires targets[n].symbol in weights && NameAllowed(weights, targets[n].symbol, limits)
    ensures AllowedUpTo(targets, n + 1, weights, limits)
  {
  }

  lemma BreachedBook(weights: Weights, symbol: string, limits: Limits)
    requires symbol in weights && !NameAllowed(weights, symbol, limits)
    ensures !BookPasses(weights, limits)
  {
  }

  /** Checks every target against the rest of the book; the first breach refuses the whole book. */
  method CheckBook(targets: seq<Target>, limits: Limits) returns (result: Option<Result>)
    requires NoSymbolTwice(targets)
    ensures result.None? <==> BookPasses(WeightsOf(targets), limits)
    ensures result.Some? ==> result.value.Breach?
  {
    var weights := WeightsOf(targets);
    WeightsAre(targets);
    for n := 0 to |targets|
      invariant AllowedUpTo(targets, n, weights, limits)
    {
      var t := targets[n];
      var verdict := CheckName(weights, t, limits);
      if verdict != Allowed {
        BreachedBook(weights, t.symbol, limits);
        return Some(Breach(t.symbol, verdict));
      }
      OneMoreAllowed(targets, n, weights, limits);
    }
    AllNamesPass(targets, weights, limits);
    result := None;
  }

  lemma AllNamesPass(targets: seq<Target>, weights: Weights, limits: Limits)
    requires AllowedUpTo(targets, |targets|, weights, limits)
    requires forall s :: s in weights ==> exists i :: 0 <= i < |targets| && targets[i].symbol == s
    ensures BookPasses(weights, limits)
  {
    forall s | s in weights ensures NameAllowed(weights, s, limits) {
      var i :| 0 <= i < |targets| && targets[i].symbol == s;
    }
  }

  /** The market order that closes a position. */
  function ClosingOrder(asOf: int, symbol: string, qty: real): Request {
    Request(Flatten(asOf / MICROS_PER_SECOND, symbol), symbol, if qty > 0.0 then Sell else Buy, Abs(qty), Market, None)
  }

  /** Of the positions, exactly those that are not to do have been sent their closing order, each one. */
  ghost predicate Sent(asOf: int, positions: map<string, real>, todo: set<string>, orders: seq<Request>) {
    && (forall s :: s in positions && s !in todo ==> ClosingOrder(asOf, s, positions[s]) in orders)
    && (forall o :: o in orders ==>
          o.symbol in positions && o.symbol !in todo && o == ClosingOrder(asOf, o.symbol, positions[o.symbol]))
    && (forall i, j :: 0 <= i < j < |orders| ==> orders[i].symbol != orders[j].symbol)
  }

  lemma OneMoreSent(asOf: int, positions: map<string, real>, todo: set<string>, orders: seq<Request>, symbol: string)
    requires Sent(asOf, positions, todo, orders) && symbol in todo && symbol in positions
    ensures ClosingOrder(asOf, symbol, positions[symbol]) !in orders
    ensures Sent(asOf, positions, todo - {symbol}, orders + [ClosingOrder(asOf, symbol, positions[symbol])])
  {
    var all := orders + [ClosingOrder(asOf, symbol, positions[symbol])];
    forall s | s in positions && s !in todo - {symbol} ensures ClosingOrder(asOf, s, positions[s]) in all {
      assert all[|orders|] == ClosingOrder(asOf, symbol, positions[symbol]);
    }
    assert forall i :: 0 <= i < |orders| ==> orders[i] in orders;
  }

  /** A submission run: the slots it had, what became of its orders, and the account after each. */
  datatype Ran = Ran(slots: int, fates: seq<Fate>, views: seq<View>) {
    /** It submits the plan of this brief. */
    ghost predicate Of(b: Brief) {
      Run(b, slots, fates, views)
    }

    ghost function Tried(b: Brief): (orders: seq<Planned>)
      requires Of(b)
      ensures |orders| == |fates|
    {
      SellsFirst(Plan(b, views[0]))
    }

    function Last(): View
      requires views != []
    {
      views[|views| - 1]
    }
  }

  /** A rebalance that got past its gates ran the plan of its brief, from one account to another. */
  ghost predicate PlacedBy(result: Result, b: Brief, before: View, ran: Ran, after: View)
    requires result.Placed?
  {
    && ran.Of(b) && ran.views[0] == before && ran.Last() == after
    && result.orders == Returned(ran.Tried(b), ran.fates)
  }

  lemma NamesEndUp(b: Brief, ran: Ran)
    requires ran.Of(b)
    ensures forall t :: t in b.targets ==>
      EndsUp(b.terms, t, Effective(ran.views[0], t.symbol), Effective(ran.Last(), t.symbol), AllAccepted(ran.fates))
    ensures forall s: string :: (forall t :: t in b.targets ==> t.symbol != s) ==>
      Effective(ran.Last(), s) == Effective(ran.views[0], s)
  {
    forall t | t in b.targets
      ensures EndsUp(b.terms, t, Effective(ran.views[0], t.symbol), Effective(ran.Last(), t.symbol),
                     AllAccepted(ran.fates))
    {
      NameEndsUp(b, ran.slots, ran.fates, ran.views, t);
    }
    forall s: string | forall t :: t in b.targets ==> t.symbol != s
      ensures Effective(ran.Last(), s) == Effective(ran.views[0], s)
    {
      UntargetedNameStands(b, ran.slots, ran.fates, ran.views, s);
    }
  }

  class ExecutionEngine {
    const broker: Venue
    const settings: Settings
    const limits: Limits
    const store: InMemoryStore?
    const killSwitch: KillSwitch
    const breaker: DrawdownCircuitBreaker
    const limiter: OrderRateLimiter

    /** The governor's view of this engine: the rows it persists to, its breaker and its switch. */
    ghost function Desk(): Governor.Desk
      reads this, store, breaker, killSwitch
    {
      Governor.Desk(if store == null then [] else store.rows, breaker.State(), killSwitch.engaged)
    }

    ghost function Objects(): set<object> {
      {broker, killSwitch, breaker, limiter} + if store == null then {} else {store}
    }

    /**
     * A new engine, with what it is handed and its own of what it is not. Its own breaker is restored from the store
     * if there is one; a breaker it is handed keeps the state it has.
     */
    constructor (broker: Venue, settings: Settings, limits: Limits, store: InMemoryStore?, killSwitch: KillSwitch?,
                 breaker: DrawdownCircuitBreaker?, limiter: OrderRateLimiter?, now: int)
      ensures this.broker == broker && this.settings == settings && this.limits == limits && this.store == store
      ensures if killSwitch == null then fresh(this.killSwitch) && !this.killSwitch.engaged
              else this.killSwitch == killSwitch
      ensures if limiter == null then fresh(this.limiter) && this.limiter.SlotsLeft() == settings.maxOrders
              else this.limiter == limiter
      ensures if breaker == null
              then && fresh(this.breaker) && this.breaker.maxDrawdown == settings.maxDrawdownHalt
                   && this.breaker.State() == (if store == null then FRESH else Load(store.rows, now))
              else this.breaker == breaker
      // With a store and nothing handed to it, it is what the governor calls a rebuild.
      ensures store != null && killSwitch == null && breaker == null ==>
        forall d: Governor.Desk :: d.rows == store.rows ==>
          Desk() == Governor.Step(d, Governor.Rebuild(now), settings.maxDrawdownHalt)
    {
      this.broker, this.settings, this.limits, this.store := broker, settings, limits, store;
      var switch, governor, cap := killSwitch, breaker, limiter;
      if switch == null {
        switch := new KillSwitch();
      }
      if governor == null {
        governor := new DrawdownCircuitBreaker(settings.maxDrawdownHalt);
        if store != null {
          var peak, tripped := LoadDrawdownState(store, now);
          if peak.Some? {
            governor.Seed(peak, tripped);
          }
        }
      }
      if cap == null {
        cap := new OrderRateLimiter(settings.maxOrders);
      }
      this.killSwitch, this.breaker, this.limiter := switch, governor, cap;
    }

    /**
     * Persists the breaker's state, so that the next engine restores it, if there is a peak and somewhere to
     * write it.
     */
    method SaveDrawdownState(asOf: int)
      modifies store
      ensures store != null ==>
        store.rows == if breaker.peak.Some? then Upsert(old(store.rows), StateRow(asOf, breaker.State()))
                      else old(store.rows)
    {
      if store != null && breaker.peak.Some? {
        store.UpsertMany([StateRow(asOf, breaker.State())]);
        assert [StateRow(asOf, breaker.State())][..0] == [];
      }
    }

    /** The drawdown and daily-loss gates; the breaker's new state is on record before either can halt. */
    method PassGates(account: Account, asOf: int) returns (halt: Option<Result>)
      requires !killSwitch.engaged
      modifies store, breaker, killSwitch
      ensures breaker.State() == Observe(old(breaker.State()), account.equity, breaker.maxDrawdown)
      ensures store != null ==> store.rows == Upsert(old(store.rows), StateRow(asOf, breaker.State()))
      ensures killSwitch.engaged <==> breaker.tripped || BadDay(settings, account.equity, account.lastEquity)
      ensures killSwitch.engaged && !breaker.tripped ==> settings.maxDailyLoss > 0.0 && account.lastEquity > 0.0
      ensures settings.maxDailyLoss > 0.0 && account.lastEquity > 0.0 && !breaker.tripped ==>
        (killSwitch.engaged <==> account.equity <= Times(1.0 - settings.maxDailyLoss, account.lastEquity))
      ensures halt.Some? <==> killSwitch.engaged
      ensures halt.Some? ==> halt.value.Halted?
    {
      BadDayIff(settings, account.equity, account.lastEquity);
      var tripped := breaker.Update(account.equity);
      SaveDrawdownState(asOf);
      if tripped {
        killSwitch.Engage("drawdown_circuit_breaker");
        return Some(Halted("drawdown circuit-breaker tripped"));
      }
      if settings.maxDailyLoss > 0.0 && account.lastEquity > 0.0 {
        var dayReturn := account.equity / account.lastEquity - 1.0;
        if dayReturn <= -settings.maxDailyLoss {
          killSwitch.Engage("daily_loss_limit");
          return Some(Halted("daily loss hit limit"));
        }
      }
      halt := None;
    }

    method Rebalance(targets: seq<Target>, prices: map<string, real>, asOf: int)
      returns (result: Result, ghost ran: Ran)
      requires broker.Valid() && NoSymbolTwice(targets)
      modifies Objects()
      ensures broker.Valid() && broker.equity == old(broker.equity)
      // An unarmed live engine refuses before it does anything.
      ensures settings.live && !settings.liveAllowed ==> result.LiveRefused? && Desk() == old(Desk())
      // Otherwise the governor takes one step, on record if there is a store, and its gates decide.
      ensures !(settings.live && !settings.liveAllowed) ==>
        var e := Governor.Cycle(old(broker.equity), asOf, BadDay(settings, old(broker.equity), old(broker.lastEquity)));
        var next := Governor.Step(old(Desk()), e, breaker.maxDrawdown);
        && breaker.State() == next.breaker && killSwitch.engaged == next.killed
        && (store != null ==> store.rows == next.rows)
        && (result.Halted? <==> !Governor.Trades(old(Desk()), e, breaker.maxDrawdown))
      ensures result.LiveRefused? ==> settings.live && !settings.liveAllowed
      // A book outside the caps is refused whole.
      ensures result.Breach? ==> !BookPasses(WeightsOf(targets), limits)
      // Orders reach the broker only past every gate, planned on what is held and pending, sells first.
      ensures !result.Placed? ==> broker.View() == old(broker.View()) && limiter.SlotsLeft() == old(limiter.SlotsLeft())
      ensures result.Placed? ==>
        && !old(killSwitch.engaged) && !killSwitch.engaged && BookPasses(WeightsOf(targets), limits)
        && ran.slots == old(limiter.SlotsLeft())
        && PlacedBy(result, BriefFor(settings, targets, prices, old(broker.equity), asOf),
                    old(broker.View()), ran, broker.View())
      // Each target then stands where it stood or at its goal, as reached or reserved by pending orders.
      ensures result.Placed? ==>
        var k := Terms(prices, Min(old(broker.equity), settings.capitalCeiling), settings.fractional, settings.band,
                       asOf / 1_000_000);
        && (forall t :: t in targets ==>
              EndsUp(k, t, Effective(old(broker.View()), t.symbol), Effective(broker.View(), t.symbol),
                     AllAccepted(ran.fates)))
        && (forall s: string :: (forall t :: t in targets ==> t.symbol != s) ==>
              Effective(broker.View(), s) == Effective(old(broker.View()), s))
    {
      ran := Ran(0, [], []);
      if settings.live && !settings.liveAllowed {
        return LiveRefused, ran;
      }
      if killSwitch.engaged {
        return Halted(killSwitch.reason), ran;
      }
      var account := broker.GetAccount();
      var halt := PassGates(account, asOf);
      if halt.Some? {
        return halt.value, ran;
      }
      var deployable := Min(account.equity, settings.capitalCeiling);
      var breach := CheckBook(targets, limits);
      if breach.Some? {
        return breach.value, ran;
      }
      var b := Brief(targets, Terms(prices, deployable, settings.fractional, settings.band, asOf / MICROS_PER_SECOND));
      var planned := BuildPlan(b, broker);
      var orders := SellsFirst(planned);
      ghost var slots := limiter.SlotsLeft();
      var placed;
      ghost var fates, views;
      placed, fates, views := SubmitAll(orders, broker, limiter);
      result, ran := Placed(placed), Ran(slots, fates, views);
      NamesEndUp(b, ran);
    }

    /**
     * The kill-switch action: halt, then send each open position its closing order. Unlike a rebalance
     * it does not survive a broker error: the first one leaves the remaining positions open.
     */
    method HaltAndFlatten(asOf: int) returns (orders: seq<Request>, raised: bool, ghost closed: set<string>)
      requires broker.Valid()
      modifies broker, killSwitch
      ensures broker.Valid() && killSwitch.engaged
      // What is held and pending moves by the closing orders the broker accepted, and by nothing else.
      ensures Closed(old(broker.View()), broker.View(), closed)
      ensures forall s :: s in closed ==> ClosingOrder(asOf, s, old(broker.View()).Held(s)) in orders
      // Only open positions are sent an order, each at most one.
      ensures forall o :: o in orders ==>
        old(broker.View()).Held(o.symbol) != 0.0 && o == ClosingOrder(asOf, o.symbol, old(broker.View()).Held(o.symbol))
      ensures forall i, j :: 0 <= i < j < |orders| ==> orders[i].symbol != orders[j].symbol
      // Some open position goes without exactly if the broker raised an error.
      ensures raised <==> exists s: string ::
        old(broker.View()).Held(s) != 0.0 && ClosingOrder(asOf, s, old(broker.View()).Held(s)) !in orders
    {
      killSwitch.Engage("manual_kill");
      var positions := broker.GetPositions();
      ghost var start := broker.View();
      orders, raised, closed := [], false, {};
      var todo := positions.Keys;
      while todo != {}
        invariant broker.Valid() && killSwitch.engaged && todo <= positions.Keys
        invariant closed !! todo && closed <= positions.Keys
        invariant Closed(start, broker.View(), closed)
        invariant Sent(asOf, positions, todo, orders)
      {
        var symbol :| symbol in todo;
        var order := ClosingOrder(asOf, symbol, positions[symbol]);
        ghost var before := broker.View();
        var outcome := broker.SubmitOrder(order);
        OneMoreClosed(start, before, closed, asOf, symbol, outcome, broker.View());
        OneMoreSent(asOf, positions, todo, orders, symbol);
        if outcome.Refused? && outcome.raised {
          assert start.Held(symbol) == positions[symbol] != 0.0;
          return orders, true, closed;
        }
        if outcome.Accepted? {
          closed := closed + {symbol};
        }
        orders := orders + [order];
        todo := todo - {symbol};
      }
    }
  }

  /**
   * A first rebalance, some fills, and a second one lead from the account before to the account after, and the
   * second tries exactly the orders of the first that were not accepted, in the same order.
   */
  ghost predicate Replanned(b: Brief, second: int, before: View, run: Ran, fills: seq<View>, rerun: Ran, after: View,
                            placed: Result, replaced: Result)
    requires placed.Placed? && replaced.Placed?
  {
    && Activity(fills)
    && PlacedBy(placed, b, before, run, fills[0])
    && PlacedBy(replaced, b.At(second), fills[|fills| - 1], rerun, after)
    && rerun.Tried(b.At(second)) == Restamped(Unaccepted(run.Tried(b), run.fates), second)
  }

  lemma SecondRunTriesTheRest(b: Brief, second: int, before: View, run: Ran, fills: seq<View>, rerun: Ran, after: View,
                              placed: Result, replaced: Result)
    requires placed.Placed? && replaced.Placed? && Activity(fills)
    requires PlacedBy(placed, b, before, run, fills[0])
    requires PlacedBy(replaced, b.At(second), fills[|fills| - 1], rerun, after)
    ensures Replanned(b, second, before, run, fills, rerun, after, placed, replaced)
  {
    ExactReplanning(b, second, run.slots, run.fates, run.views, fills);
  }

  /** A rebalance, as one that comes after it depends on it. */
  method RebalanceFrom(engine: ExecutionEngine, targets: seq<Target>, prices: map<string, real>, asOf: int)
    returns (result: Result, ghost ran: Ran)
    requires engine.broker.Valid() && NoSymbolTwice(targets)
    modifies engine.Objects()
    ensures engine.broker.Valid() && engine.broker.equity == old(engine.broker.equity)
    ensures result.Placed? ==>
      PlacedBy(result, BriefFor(engine.settings, targets, prices, old(engine.broker.equity), asOf),
               old(engine.broker.View()), ran, engine.broker.View())
  {
    result, ran := engine.Rebalance(targets, prices, asOf);
  }

  /**
   * Two rebalances with the same targets and prices, by one engine or by two, with the capital ceiling at or below the
   * equity both times and anything filling in between: if both get past the gates, the second replans the first.
   */
  method RebalanceTwice(first: ExecutionEngine, second: ExecutionEngine, targets: seq<Target>,
                        prices: map<string, real>, asOf: int, later: int)
    returns (placed: Result, replaced: Result, ghost run: Ran, ghost fills: seq<View>, ghost rerun: Ran)
    requires first.broker == second.broker && first.settings == second.settings
    requires first.broker.Valid() && NoSymbolTwice(targets)
    modifies first.Objects(), second.Objects()
    ensures placed.Placed? && replaced.Placed? ==>
      first.settings.capitalCeiling <= Min(old(first.broker.equity), first.broker.equity) ==>
      Replanned(BriefFor(first.settings, targets, prices, first.settings.capitalCeiling, asOf),
                later / MICROS_PER_SECOND, old(first.broker.View()), run, fills, rerun, first.broker.View(),
                placed, replaced)
  {
    placed, run := RebalanceFrom(first, targets, prices, asOf);
    fills := first.broker.TimePasses();
    replaced, rerun := RebalanceFrom(second, targets, prices, later);
    if placed.Placed? && replaced.Placed? {
      if first.settings.capitalCeiling <= Min(old(first.broker.equity), first.broker.equity) {
        SecondRunTriesTheRest(
          BriefFor(first.settings, targets, prices, first.settings.capitalCeiling, asOf), later / MICROS_PER_SECOND,
          old(first.broker.View()), run, fills, rerun, first.broker.View(), placed, replaced);
      }
    }
  }

  /** What is held and pending has moved by the whole holding in the closed symbols, and not at all in others. */
  ghost predicate Closed(before: View, after: View, closed: set<string>) {
    forall s: string ::
      Effective(after, s) == Effective(before, s) - if s in closed then before.Held(s) else 0.0
  }

  lemma OneMoreClosed(start: View, v: View, closed: set<string>, asOf: int, symbol: string, outcome: Outcome, v': View)
    requires BrokerProtocol.Valid(v) && Closed(start, v, closed) && symbol !in closed
    requires SubmitStep(v, ClosingOrder(asOf, symbol, start.Held(symbol)), outcome, v')
    ensures Closed(start, v', if outcome.Accepted? then closed + {symbol} else closed)
  {
    forall s: string
      ensures Effective(v', s) == Effective(v, s) - if outcome.Accepted? && s == symbol then start.Held(s) else 0.0
    {
      SubmitMovesEffective(v, ClosingOrder(asOf, symbol, start.Held(symbol)), outcome, v', s);
    }
  }
}
