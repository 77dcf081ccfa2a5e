/** The end of a paper cycle: a book is limited, the names it leaves are flattened, and the engine rebalances to it. */
module PaperCycles {
  import opened Prelude
  import opened Orders
  import opened Planning
  import opened RiskLimits
  import opened Selection
  import opened Engine

  /** The part of a book that is not to be done. */
  function Without(book: Weights, todo: set<string>): Weights {
    map s | s in book && s !in todo :: book[s]
  }

  lemma OneMoreItem(book: Weights, todo: set<string>, targets: seq<Target>, s: string)
    requires s in todo && s in book && NoSymbolTwice(targets) && WeightsOf(targets) == Without(book, todo)
    ensures NoSymbolTwice(targets + [Target(s, book[s])])
    ensures WeightsOf(targets + [Target(s, book[s])]) == Without(book, todo - {s})
  {
    WeightsAre(targets);
    assert (targets + [Target(s, book[s])])[..|targets|] == targets;
    assert forall i :: 0 <= i < |targets| ==> targets[i].symbol in Without(book, todo);
  }

  /** The items of a book, in an arbitrary order. */
  method Items(book: Weights) returns (targets: seq<Target>)
    ensures NoSymbolTwice(targets) && WeightsOf(targets) == book
  {
    targets := [];
    var todo := book.Keys;
    while todo != {}
      invariant todo <= book.Keys && NoSymbolTwice(targets) && WeightsOf(targets) == Without(book, todo)
    {
      var s :| s in todo;
      OneMoreItem(book, todo, targets, s);
      targets := targets + [Target(s, book[s])];
      todo := todo - {s};
    }
  }

  /** The book a cycle rebalances to: the limited weights, and a zero for every priced name held that they leave. */
  ghost function BookFor(weights: Weights, limits: Limits, sectors: map<string, string>, held: set<string>,
                         prices: map<string, real>): Weights
  {
    var target := Limited(weights, limits, sectors);
    WithFlattened(target, Leavers(target, held, prices))
  }

  /**
   * Limits, flattens and rebalances. Whatever the weights, the risk checks of the engine never refuse the book; so,
   * unless there is nothing to trade, live trading is not armed or a gate is closed, the book's plan is run.
   */
  method RebalanceTo(engine: ExecutionEngine, weights: Weights, sectors: map<string, string>, held: set<string>,
                     prices: map<string, real>, asOf: int)
    returns (result: Option<Result>, ghost targets: seq<Target>, ghost ran: Ran)
    requires engine.broker.Valid() && engine.limits.Valid()
    modifies engine.Objects()
    ensures engine.broker.Valid()
    ensures NoSymbolTwice(targets) && WeightsOf(targets) == BookFor(weights, engine.limits, sectors, held, prices)
    ensures result == None <==> BookFor(weights, engine.limits, sectors, held, prices) == map[]
    ensures result.Some? ==> result.value.LiveRefused? || result.value.Halted? || result.value.Placed?
    ensures result.Some? && result.value.Placed? ==>
      PlacedBy(result.value, BriefFor(engine.settings, targets, prices, old(engine.broker.equity), asOf),
               old(engine.broker.View()), ran, engine.broker.View())
  {
    var target := ApplyRiskLimits(weights, engine.limits, sectors);
    var book := FlattenLeavers(target, held, prices);
    LimitedBookIsNeverRefused(weights, engine.limits, sectors, Leavers(target, held, prices));
    var items := Items(book);
    targets, ran := items, Ran(0, [], []);
    if book == map[] {
      return None, targets, ran;
    }
    var outcome;
    outcome, ran := engine.Rebalance(items, prices, asOf);
    result := Some(outcome);
  }
}
