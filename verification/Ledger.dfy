/**
 * Average-cost bookkeeping of a sequence of fills, and the accounting identity
 * it obeys: wealth gained is realised profit plus unrealised profit.
 */
module Ledger {
  import opened Prelude
  import opened Sums
  import opened Orders

  datatype Fill = Fill(id: OrderId, symbol: string, signed: real, price: real)

  /** A position smaller than this is treated as flat and deleted. */
  const FLAT := 0.000_000_000_001

  type Positions = map<string, Position>

  /** The position in a symbol after a fill; None once it is flat. */
  function AfterFill(pos: Option<Position>, fill: Fill): Option<Position> {
    match pos
    case None => Some(Position(fill.symbol, fill.signed, fill.price))
    case Some(p) =>
      var newQty := p.qty + fill.signed;
      if Abs(newQty) < FLAT then None
      else if (p.qty > 0.0) == (fill.signed > 0.0) then
        Some(Position(fill.symbol, newQty, (Times(p.avgPrice, p.qty) + Times(fill.price, fill.signed)) / newQty))
      else
        Some(Position(fill.symbol, newQty, if (newQty > 0.0) != (p.qty > 0.0) then fill.price else p.avgPrice))
  }

  function Lookup(ps: Positions, symbol: string): Option<Position> {
    if symbol in ps then Some(ps[symbol]) else None
  }

  function Store(ps: Positions, symbol: string, pos: Option<Position>): Positions {
    match pos
    case None => ps - {symbol}
    case Some(p) => ps[symbol := p]
  }

  function ApplyFill(ps: Positions, fill: Fill): Positions {
    Store(ps, fill.symbol, AfterFill(Lookup(ps, fill.symbol), fill))
  }

  function PositionsAfter(fills: seq<Fill>): Positions {
    if fills == [] then map[] else ApplyFill(PositionsAfter(fills[..|fills| - 1]), fills[|fills| - 1])
  }

  function CashAfter(start: real, fills: seq<Fill>): real {
    if fills == [] then start
    else
      var last := fills[|fills| - 1];
      CashAfter(start, fills[..|fills| - 1]) - Times(last.signed, last.price)
  }

  function Held(ps: Positions, symbol: string): real {
    if symbol in ps then ps[symbol].qty else 0.0
  }

  // ------------------------------------------------ the reference bookkeeping

  /** The part of an existing position that a trade closes, signed like the position. */
  function ClosedQty(qty: real, signed: real): real {
    if Abs(qty + signed) < FLAT then qty
    else if (qty > 0.0) == (signed > 0.0) then 0.0
    else if Abs(signed) <= Abs(qty) then -signed
    else qty
  }

  /** The profit one fill realises against the average cost of what it closes. */
  function RealisedBy(pos: Option<Position>, fill: Fill): real {
    match pos
    case None => 0.0
    case Some(p) => Times(ClosedQty(p.qty, fill.signed), fill.price - p.avgPrice)
  }

  /** The sliver of a position that is dropped when a fill leaves less than FLAT. */
  function Dropped(pos: Option<Position>, fill: Fill): real {
    match pos
    case None => 0.0
    case Some(p) => if Abs(p.qty + fill.signed) < FLAT then p.qty + fill.signed else 0.0
  }

  function Realised(fills: seq<Fill>): real {
    if fills == [] then 0.0
    else
      var init, last := fills[..|fills| - 1], fills[|fills| - 1];
      Realised(init) + RealisedBy(Lookup(PositionsAfter(init), last.symbol), last)
  }

  /** The value, at the fills that dropped them, of all dropped slivers. */
  function DroppedValue(fills: seq<Fill>): real {
    if fills == [] then 0.0
    else
      var init, last := fills[..|fills| - 1], fills[|fills| - 1];
      DroppedValue(init) + Times(Dropped(Lookup(PositionsAfter(init), last.symbol), last), last.price)
  }

  function DroppedQty(fills: seq<Fill>, symbol: string): real {
    if fills == [] then 0.0
    else
      var init, last := fills[..|fills| - 1], fills[|fills| - 1];
      DroppedQty(init, symbol) +
      if last.symbol == symbol then Dropped(Lookup(PositionsAfter(init), symbol), last) else 0.0
  }

  function NetQty(fills: seq<Fill>, symbol: string): real {
    if fills == [] then 0.0
    else
      var last := fills[|fills| - 1];
      NetQty(fills[..|fills| - 1], symbol) + if last.symbol == symbol then last.signed else 0.0
  }

  ghost function Bases(ps: Positions): map<string, real> {
    map s | s in ps :: Times(ps[s].qty, ps[s].avgPrice)
  }

  ghost function CostBasis(ps: Positions): real {
    Total(Bases(ps))
  }

  function Mark(prices: map<string, real>, pos: Position): real {
    if pos.symbol in prices then prices[pos.symbol] else pos.avgPrice
  }

  function MarketValues(ps: Positions, prices: map<string, real>): map<string, real> {
    map s | s in ps :: Times(ps[s].qty, Mark(prices, ps[s]))
  }

  ghost function MarketValue(ps: Positions, prices: map<string, real>): real {
    Total(MarketValues(ps, prices))
  }

  ghost function Unrealised(ps: Positions, prices: map<string, real>): real {
    Total(map s | s in ps :: Times(ps[s].qty, Mark(prices, ps[s]) - ps[s].avgPrice))
  }

  // ------------------------------------------------------------- one position

  function Basis(pos: Option<Position>): real {
    match pos
    case None => 0.0
    case Some(p) => Times(p.qty, p.avgPrice)
  }

  /** One fill moves cost basis by the cash it spends plus the profit it realises. */
  lemma FillConservesValue(pos: Option<Position>, fill: Fill)
    ensures Basis(AfterFill(pos, fill)) - Basis(pos) - Times(fill.signed, fill.price)
      == RealisedBy(pos, fill) - Times(Dropped(pos, fill), fill.price)
  {
    match pos
    case None => assert Times(0.0, fill.price) == 0.0;
    case Some(p) =>
      var q, s, a, x := p.qty, fill.signed, p.avgPrice, fill.price;
      if Abs(q + s) < FLAT {
        ClosingAlgebra(q, s, a, x);
      } else if (q > 0.0) == (s > 0.0) {
        AveragingAlgebra(q, s, a, x);
      } else {
        ReducingAlgebra(q, s, a, x);
      }
  }

  lemma ClosingAlgebra(q: real, s: real, a: real, x: real)
    ensures -Times(q, a) - Times(s, x) == Times(q, x - a) - Times(q + s, x)
  {
  }

  lemma AveragingAlgebra(q: real, s: real, a: real, x: real)
    requires q + s != 0.0
    ensures Times(q + s, (Times(a, q) + Times(x, s)) / (q + s)) - Times(q, a) - Times(s, x) == 0.0
    ensures Times(0.0, x - a) == 0.0 == Times(0.0, x)
  {
  }

  lemma ReducingAlgebra(q: real, s: real, a: real, x: real)
    ensures Times(q + s, a) - Times(q, a) - Times(s, x) == Times(-s, x - a)
    ensures Times(q + s, x) - Times(q, a) - Times(s, x) == Times(q, x - a)
    ensures Times(0.0, x) == 0.0
  {
  }

  // ------------------------------------------------------------ whole ledgers

  lemma StoreChangesBasis(ps: Positions, symbol: string, pos: Option<Position>)
    ensures CostBasis(Store(ps, symbol, pos)) == CostBasis(ps) - Basis(Lookup(ps, symbol)) + Basis(pos)
  {
    var before, after := Bases(ps), Bases(Store(ps, symbol, pos));
    assert before - {symbol} == after - {symbol};
    if symbol in ps {
      TotalRemove(before, symbol);
    } else {
      assert before - {symbol} == before;
    }
    if pos.Some? {
      TotalRemove(after, symbol);
    } else {
      assert after - {symbol} == after;
    }
  }

  /** Cash plus cost basis is starting cash plus realised profit, up to dropped slivers. */
  lemma {:induction false} CashPlusBasis(start: real, fills: seq<Fill>)
    ensures CashAfter(start, fills) + CostBasis(PositionsAfter(fills))
      == start + Realised(fills) - DroppedValue(fills)
  {
    if fills != [] {
      var init, last := fills[..|fills| - 1], fills[|fills| - 1];
      var ps := PositionsAfter(init);
      CashPlusBasis(start, init);
      StoreChangesBasis(ps, last.symbol, AfterFill(Lookup(ps, last.symbol), last));
      FillConservesValue(Lookup(ps, last.symbol), last);
    } else {
      assert Bases(map[]) == map[];
    }
  }

  lemma MarketValueIsBasisPlusUnrealised(ps: Positions, prices: map<string, real>)
    ensures MarketValue(ps, prices) == CostBasis(ps) + Unrealised(ps, prices)
  {
    var gains := map s | s in ps :: Times(ps[s].qty, Mark(prices, ps[s]) - ps[s].avgPrice);
    forall s | s in ps ensures MarketValues(ps, prices)[s] == Bases(ps)[s] + gains[s] {
      SplitMark(ps[s].qty, Mark(prices, ps[s]), ps[s].avgPrice);
    }
    TotalAdd(Bases(ps), gains, MarketValues(ps, prices));
  }

  lemma SplitMark(q: real, m: real, a: real)
    ensures Times(q, m) == Times(q, a) + Times(q, m - a)
  {
  }

  /**
   * The accounting identity, for every run of fills and any marks: what was gained since
   * the start is realised profit plus unrealised profit, less the value of dropped slivers.
   */
  lemma AccountingIdentity(start: real, fills: seq<Fill>, prices: map<string, real>)
    ensures var ps := PositionsAfter(fills);
      CashAfter(start, fills) + MarketValue(ps, prices) - start
      == Realised(fills) + Unrealised(ps, prices) - DroppedValue(fills)
  {
    CashPlusBasis(start, fills);
    MarketValueIsBasisPlusUnrealised(PositionsAfter(fills), prices);
  }

  /** A position is the signed sum of its fills, less what was dropped on the way. */
  lemma {:induction false} PositionIsNetOfFills(fills: seq<Fill>, symbol: string)
    ensures Held(PositionsAfter(fills), symbol) == NetQty(fills, symbol) - DroppedQty(fills, symbol)
    ensures symbol in PositionsAfter(fills) ==> PositionsAfter(fills)[symbol].symbol == symbol
  {
    if fills != [] {
      PositionIsNetOfFills(fills[..|fills| - 1], symbol);
    }
  }

  lemma HoldingsAreMarked(fills: seq<Fill>, prices: map<string, real>)
    ensures var ps := PositionsAfter(fills);
      MarketValue(ps, prices)
      == Total(map s | s in ps :: Times(ps[s].qty, if s in prices then prices[s] else ps[s].avgPrice))
  {
    var ps := PositionsAfter(fills);
    forall s | s in ps ensures ps[s].symbol == s {
      PositionIsNetOfFills(fills, s);
    }
    assert MarketValues(ps, prices)
      == map s | s in ps :: Times(ps[s].qty, if s in prices then prices[s] else ps[s].avgPrice);
  }

  // ------------------------------------------------------------- average cost

  /** What the fills of a run trade, and what they cost, in all. */
  function Traded(fills: seq<Fill>): real {
    if fills == [] then 0.0 else Traded(fills[..|fills| - 1]) + fills[|fills| - 1].signed
  }

  function Cost(fills: seq<Fill>): real {
    if fills == [] then 0.0
    else
      var last := fills[|fills| - 1];
      Cost(fills[..|fills| - 1]) + Times(last.signed, last.price)
  }

  /** Fills of one symbol in one direction, none of them a sliver. */
  ghost predicate OneWay(fills: seq<Fill>, symbol: string, long: bool) {
    forall i :: 0 <= i < |fills| ==>
      fills[i].symbol == symbol && (if long then fills[i].signed else -fills[i].signed) >= 0.000_000_000_001
  }

  /** However a position is built up, its average price is what it cost, by the share. */
  lemma {:induction false} BuiltUpAtAverageCost(fills: seq<Fill>, symbol: string, long: bool)
    requires fills != [] && OneWay(fills, symbol, long)
    ensures symbol in PositionsAfter(fills)
    ensures var p := PositionsAfter(fills)[symbol];
      && p.qty == Traded(fills) && Times(p.qty, p.avgPrice) == Cost(fills)
      && (if long then p.qty >= 0.000_000_000_001 else p.qty <= -0.000_000_000_001)
    ensures Realised(fills) == 0.0
  {
    var init, last := fills[..|fills| - 1], fills[|fills| - 1];
    assert init == [] ==> PositionsAfter(init) == map[] && Traded(init) == 0.0 == Cost(init) && Realised(init) == 0.0;
    if init != [] {
      BuiltUpAtAverageCost(init, symbol, long);
      var p := PositionsAfter(init)[symbol];
      AveragingAlgebra(p.qty, last.signed, p.avgPrice, last.price);
    }
  }

  /**
   * A fill against a position realises the part it closes at the difference from the average price. What is left keeps
   * its average; what flips over starts at the fill's price; a position closed out is gone.
   */
  lemma CounterFill(p: Position, fill: Fill)
    requires fill.symbol == p.symbol && if p.qty > 0.0 then fill.signed < 0.0 else fill.signed > 0.0 && p.qty < 0.0
    ensures Abs(p.qty + fill.signed) < 0.000_000_000_001 ==>
      AfterFill(Some(p), fill) == None && RealisedBy(Some(p), fill) == Times(p.qty, fill.price - p.avgPrice)
    ensures Abs(p.qty + fill.signed) >= 0.000_000_000_001 && Abs(fill.signed) < Abs(p.qty) ==>
      && AfterFill(Some(p), fill) == Some(Position(p.symbol, p.qty + fill.signed, p.avgPrice))
      && RealisedBy(Some(p), fill) == Times(-fill.signed, fill.price - p.avgPrice)
    ensures Abs(p.qty + fill.signed) >= 0.000_000_000_001 && Abs(fill.signed) > Abs(p.qty) ==>
      && AfterFill(Some(p), fill) == Some(Position(p.symbol, p.qty + fill.signed, fill.price))
      && RealisedBy(Some(p), fill) == Times(p.qty, fill.price - p.avgPrice)
  {
  }

  predicate Whole(x: real) {
    x == x.Floor as real
  }

  lemma WholeIsClosedUnderPlus(x: real, y: real)
    requires Whole(x) && Whole(y)
    ensures Whole(x + y)
    ensures Abs(x) < 1.0 ==> x == 0.0
  {
    assert x + y == (x.Floor + y.Floor) as real;
  }

  /** A whole fill of a whole position drops nothing and leaves a whole position. */
  lemma WholeFillDropsNothing(ps: Positions, fill: Fill)
    requires Whole(Held(ps, fill.symbol)) && Whole(fill.signed)
    ensures Dropped(Lookup(ps, fill.symbol), fill) == 0.0
    ensures Whole(Held(ApplyFill(ps, fill), fill.symbol))
  {
    WholeIsClosedUnderPlus(Held(ps, fill.symbol), fill.signed);
    WholeIsClosedUnderPlus(Held(ps, fill.symbol) + fill.signed, 0.0);
  }

  /** Trading whole shares never drops a sliver, so both laws above become exact. */
  lemma {:induction false} WholeSharesDropNothing(fills: seq<Fill>, symbol: string)
    requires forall i :: 0 <= i < |fills| ==> Whole(fills[i].signed)
    ensures DroppedValue(fills) == 0.0 && DroppedQty(fills, symbol) == 0.0
    ensures Whole(Held(PositionsAfter(fills), symbol))
  {
    if fills != [] {
      var init, last := fills[..|fills| - 1], fills[|fills| - 1];
      var ps := PositionsAfter(init);
      WholeSharesDropNothing(init, symbol);
      WholeSharesDropNothing(init, last.symbol);
      WholeFillDropsNothing(ps, last);
      assert symbol != last.symbol ==> Held(ApplyFill(ps, last), symbol) == Held(ps, symbol);
      assert Times(0.0, last.price) == 0.0;
    }
  }
}
