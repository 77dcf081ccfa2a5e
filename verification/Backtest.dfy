/** The backtest: strategies see the past of one price panel and are paid by the returns that follow. */
module Backtest {
  import opened Prelude
  import opened Sums
  import Ordering

  type Weights = map<string, real>

  /** One date of the panel and the prices known for it. */
  datatype Row = Row(time: int, prices: map<string, real>)

  datatype Panel = Panel(columns: seq<string>, rows: seq<Row>) {
    ghost predicate Valid() {
      forall i, j :: 0 <= i < j < |rows| ==> rows[i].time < rows[j].time
    }
  }

  /** What a run is made of besides its schedule; change is the return of a name over the last row of a history. */
  datatype Setup = Setup(
    panel: Panel,
    strategy: (Panel, int) -> Weights,
    change: (seq<Row>, string) -> real,
    turnoverCost: (Weights, Weights) -> real,
    holdingCost: (Weights, int) -> real)

  datatype BacktestError = EmptySchedule | NoPriceData

  datatype Outcome =
    | Failed(error: BacktestError)
    | Finished(gross: seq<real>, costs: seq<real>, turnover: map<int, real>)

  const SECONDS_PER_DAY := 86400

  ghost predicate Ascending(times: seq<int>) {
    forall i, j :: 0 <= i < j < |times| ==> times[i] <= times[j]
  }

  // ------------------------------------------------------------- what is visible

  /** The rows up to time t. */
  function VisibleRows(rows: seq<Row>, t: int): seq<Row> {
    if rows == [] || rows[|rows| - 1].time <= t then rows else VisibleRows(rows[..|rows| - 1], t)
  }

  /** The point-in-time view of a panel. */
  function Visible(panel: Panel, t: int): Panel {
    Panel(panel.columns, VisibleRows(panel.rows, t))
  }

  lemma {:induction false} VisibleIsUpTo(panel: Panel, t: int)
    requires panel.Valid()
    ensures var n := |VisibleRows(panel.rows, t)|;
      n <= |panel.rows| && VisibleRows(panel.rows, t) == panel.rows[..n]
      && forall j :: 0 <= j < |panel.rows| ==> (j < n <==> panel.rows[j].time <= t)
    decreases |panel.rows|
  {
    var rows := panel.rows;
    if rows != [] && rows[|rows| - 1].time > t {
      VisibleIsUpTo(Panel(panel.columns, rows[..|rows| - 1]), t);
    } else {
      assert rows[..|rows|] == rows;
    }
  }

  // ------------------------------------------------- the books and what they earn

  /** The weights chosen at rebalance k; there are none before the first. */
  function Book(b: Setup, rebalances: seq<int>, k: int): Weights
    requires k < |rebalances|
  {
    if k < 0 then map[] else b.strategy(Visible(b.panel, rebalances[k]), rebalances[k])
  }

  function Weight(w: Weights, name: string): real {
    if name in w then w[name] else 0.0
  }

  /** The return of a book over row j. */
  function Earned(b: Setup, w: Weights, j: int, columns: seq<string>): real
    requires 0 <= j < |b.panel.rows|
  {
    if columns == [] then 0.0
    else
      var name := columns[|columns| - 1];
      Earned(b, w, j, columns[..|columns| - 1]) + Times(b.change(b.panel.rows[..j + 1], name), Weight(w, name))
  }

  function Changes(prev: Weights, next: Weights): Weights {
    map name | name in prev.Keys + next.Keys :: Abs(Weight(next, name) - Weight(prev, name))
  }

  /** Sum of absolute weight changes over the names of either book. */
  ghost function OneWayTurnover(prev: Weights, next: Weights): real {
    Total(Changes(prev, next))
  }

  lemma StandingStillIsFree(w: Weights)
    ensures OneWayTurnover(w, w) == 0.0
  {
    var none: Weights := map[];
    assert Total(none) == 0.0;
    TotalIgnoresZeros(Changes(w, w), none);
  }

  /** Turnover name by name: changing what one name is given changes it by the difference in that name's trade. */
  lemma TurnoverOfOneChange(prev: Weights, next: Weights, name: string, x: real)
    ensures OneWayTurnover(prev, next[name := x])
      == OneWayTurnover(prev, next) - Abs(Weight(next, name) - Weight(prev, name)) + Abs(x - Weight(prev, name))
  {
    var before, change := Changes(prev, next), Abs(x - Weight(prev, name));
    ChangesOfOneChange(prev, next, name, x);
    TotalUpdate(before, name, change);
    if name in before {
      TotalRemove(before, name);
    }
  }

  lemma ChangesOfOneChange(prev: Weights, next: Weights, name: string, x: real)
    ensures Changes(prev, next[name := x]) == Changes(prev, next)[name := Abs(x - Weight(prev, name))]
    ensures Abs(Weight(next, name) - Weight(prev, name)) ==
      if name in Changes(prev, next) then Changes(prev, next)[name] else 0.0
  {
    var after, expected := Changes(prev, next[name := x]), Changes(prev, next)[name := Abs(x - Weight(prev, name))];
    forall n | n in after || n in expected ensures n in after && n in expected && after[n] == expected[n] {
      OtherNamesTradeAlike(prev, next, name, x, n);
    }
    assert after.Keys == expected.Keys;
  }

  lemma OtherNamesTradeAlike(prev: Weights, next: Weights, name: string, x: real, n: string)
    ensures n in Changes(prev, next[name := x]) <==> n == name || n in Changes(prev, next)
    ensures n == name ==> Changes(prev, next[name := x])[n] == Abs(x - Weight(prev, name))
    ensures n in Changes(prev, next) && n != name ==> Changes(prev, next[name := x])[n] == Changes(prev, next)[n]
  {
  }

  /** Switching from some names to others trades both legs. */
  lemma SwitchTradesBothLegs(a: Weights, b: Weights)
    requires a.Keys !! b.Keys
    ensures OneWayTurnover(a, b) == OneWayTurnover(a, map[]) + OneWayTurnover(map[], b)
  {
    TotalOfParts(Changes(a, map[]), Changes(map[], b), Changes(a, b));
  }

  /** What the weights of a book earn on row j, name by name, in the names there are columns for. */
  function Returns(b: Setup, w: Weights, j: int, columns: seq<string>): map<string, real>
    requires 0 <= j < |b.panel.rows|
  {
    map name | name in w && name in columns :: Times(w[name], b.change(b.panel.rows[..j + 1], name))
  }

  ghost predicate NoColumnTwice(columns: seq<string>) {
    forall i, j :: 0 <= i < j < |columns| ==> columns[i] != columns[j]
  }

  /** A book earns the sum of weight times return over its names that have a column. */
  lemma {:induction false} EarnedIsTotal(b: Setup, w: Weights, j: int, columns: seq<string>)
    requires 0 <= j < |b.panel.rows| && NoColumnTwice(columns)
    ensures Earned(b, w, j, columns) == Total(Returns(b, w, j, columns))
  {
    if columns == [] {
      assert Returns(b, w, j, columns) == map[];
    } else {
      var init, name := columns[..|columns| - 1], columns[|columns| - 1];
      EarnedIsTotal(b, w, j, init);
      var change := b.change(b.panel.rows[..j + 1], name);
      MoreColumns(b, w, j, columns, change);
      WeightTimes(w, name, change);
      if name in w {
        TotalUpdate(Returns(b, w, j, init), name, Times(w[name], change));
      }
    }
  }

  lemma WeightTimes(w: Weights, name: string, change: real)
    ensures Times(change, Weight(w, name)) == if name in w then Times(w[name], change) else 0.0
  {
  }

  /** One more column adds the return of its name, if the book holds it. */
  lemma MoreColumns(b: Setup, w: Weights, j: int, columns: seq<string>, change: real)
    requires 0 <= j < |b.panel.rows| && columns != [] && NoColumnTwice(columns)
    requires change == b.change(b.panel.rows[..j + 1], columns[|columns| - 1])
    ensures var init, name := columns[..|columns| - 1], columns[|columns| - 1];
      && NoColumnTwice(init) && name !in Returns(b, w, j, init)
      && Returns(b, w, j, columns)
         == if name in w then Returns(b, w, j, init)[name := Times(w[name], change)] else Returns(b, w, j, init)
  {
    var init, name := columns[..|columns| - 1], columns[|columns| - 1];
    assert columns == init + [name];
    assert name !in init;
  }

  // ------------------------------------------------------- who is in charge when

  /** Where the window opened at rebalance k ends: at the next one, or with the panel. */
  function WindowEnd(panel: Panel, rebalances: seq<int>, k: int): int
    requires 0 <= k < |rebalances| && panel.rows != []
  {
    if k + 1 < |rebalances| then rebalances[k + 1] else panel.rows[|panel.rows| - 1].time
  }

  /** The last rebalance strictly before a time; minus one if there is none. */
  function LatestBefore(rebalances: seq<int>, time: int): (k: int)
    ensures -1 <= k < |rebalances|
  {
    if rebalances == [] then -1
    else if rebalances[|rebalances| - 1] < time then |rebalances| - 1
    else LatestBefore(rebalances[..|rebalances| - 1], time)
  }

  lemma {:induction false} LatestBeforeIs(rebalances: seq<int>, time: int, k: int)
    requires Ascending(rebalances) && -1 <= k < |rebalances|
    ensures LatestBefore(rebalances, time) == k <==>
      (k >= 0 ==> rebalances[k] < time) && (k + 1 < |rebalances| ==> time <= rebalances[k + 1])
    decreases |rebalances|
  {
    if rebalances != [] {
      var init := rebalances[..|rebalances| - 1];
      if rebalances[|rebalances| - 1] >= time && k < |init| {
        LatestBeforeIs(init, time, k);
      }
    }
  }

  lemma {:induction false} LatestBeforeGrows(rebalances: seq<int>, t: int, u: int)
    requires t <= u
    ensures LatestBefore(rebalances, t) <= LatestBefore(rebalances, u)
  {
    if rebalances != [] && rebalances[|rebalances| - 1] >= t {
      LatestBeforeGrows(rebalances[..|rebalances| - 1], t, u);
    }
  }

  /** A row lies in the window of exactly the latest rebalance strictly before it. */
  lemma WindowIsLatest(panel: Panel, rebalances: seq<int>, k: int, j: int)
    requires panel.Valid() && Ascending(rebalances) && 0 <= k < |rebalances| && 0 <= j < |panel.rows|
    ensures rebalances[k] < panel.rows[j].time <= WindowEnd(panel, rebalances, k)
      <==> LatestBefore(rebalances, panel.rows[j].time) == k
  {
    LatestBeforeIs(rebalances, panel.rows[j].time, k);
    if j < |panel.rows| - 1 {
      assert panel.rows[j].time < panel.rows[|panel.rows| - 1].time;
    }
  }

  /** The gross return of row j: what the book of the latest rebalance strictly before it earns. */
  function GrossAt(b: Setup, rebalances: seq<int>, j: int): real
    requires 0 <= j < |b.panel.rows|
  {
    var k := LatestBefore(rebalances, b.panel.rows[j].time);
    if k < 0 then 0.0 else Earned(b, Book(b, rebalances, k), j, b.panel.columns)
  }

  /** The window in which row j lies opens with it. */
  predicate OpensWindow(panel: Panel, rebalances: seq<int>, j: int)
    requires 0 <= j < |panel.rows|
  {
    var k := LatestBefore(rebalances, panel.rows[j].time);
    k >= 0 && (j == 0 || panel.rows[j - 1].time <= rebalances[k])
  }

  function HoldingDays(panel: Panel, rebalances: seq<int>, k: int): int
    requires 0 <= k < |rebalances| && panel.rows != []
  {
    var days := (WindowEnd(panel, rebalances, k) - rebalances[k]) / SECONDS_PER_DAY;
    if days > 0 then days else 0
  }

  /** What rebalance k costs: trading into its book, and holding it to the end of its window. */
  function Charge(b: Setup, rebalances: seq<int>, k: int): real
    requires 0 <= k < |rebalances| && b.panel.rows != []
  {
    var w := Book(b, rebalances, k);
    b.turnoverCost(Book(b, rebalances, k - 1), w) + b.holdingCost(w, HoldingDays(b.panel, rebalances, k))
  }

  /** The cost booked on row j: the charge of the rebalance whose window it opens. */
  function CostAt(b: Setup, rebalances: seq<int>, j: int): real
    requires 0 <= j < |b.panel.rows|
  {
    if OpensWindow(b.panel, rebalances, j) then Charge(b, rebalances, LatestBefore(rebalances, b.panel.rows[j].time))
    else 0.0
  }

  /** The turnover recorded for each rebalance time: that of the last rebalance at it. */
  ghost predicate TurnoverOf(turnover: map<int, real>, b: Setup, rebalances: seq<int>, upTo: int)
    requires 0 <= upTo <= |rebalances|
  {
    && (forall t :: t in turnover <==> t in rebalances[..upTo])
    && (forall k :: 0 <= k < upTo && LastAt(rebalances[..upTo], k) ==>
      rebalances[k] in turnover
      && turnover[rebalances[k]] == OneWayTurnover(Book(b, rebalances, k - 1), Book(b, rebalances, k)))
  }

  ghost predicate LastAt(rebalances: seq<int>, k: int) {
    0 <= k < |rebalances| && forall l :: k < l < |rebalances| ==> rebalances[l] != rebalances[k]
  }

  /** Rebalance k is the latest one strictly before row j. */
  predicate Governs(panel: Panel, rebalances: seq<int>, k: int, j: int)
    requires 0 <= k < |rebalances| && 0 <= j < |panel.rows|
  {
    rebalances[k] < panel.rows[j].time && (k + 1 < |rebalances| ==> panel.rows[j].time <= rebalances[k + 1])
  }

  /** The book of rebalance k is what the strategy chooses from the first m rows. */
  ghost predicate Sees(b: Setup, rebalances: seq<int>, k: int, m: int)
    requires 0 <= k < |rebalances|
  {
    && 0 <= m <= |b.panel.rows|
    && (forall i :: 0 <= i < m ==> b.panel.rows[i].time <= rebalances[k])
    && (m < |b.panel.rows| ==> b.panel.rows[m].time > rebalances[k])
  }

  lemma BookSeesThePast(b: Setup, rebalances: seq<int>, k: int, m: int)
    requires b.panel.Valid() && 0 <= k < |rebalances| && Sees(b, rebalances, k, m)
    ensures Book(b, rebalances, k) == b.strategy(Panel(b.panel.columns, b.panel.rows[..m]), rebalances[k])
  {
    VisibleIsUpTo(b.panel, rebalances[k]);
    var n := |VisibleRows(b.panel.rows, rebalances[k])|;
    assert n < |b.panel.rows| ==> b.panel.rows[n].time > rebalances[k];
  }

  /** The days a book is held: whole ones, from its rebalance to the next or to the end, if that is later at all. */
  ghost predicate HeldFor(panel: Panel, rebalances: seq<int>, k: int, days: int)
    requires 0 <= k < |rebalances| && panel.rows != []
  {
    var end := if k + 1 < |rebalances| then rebalances[k + 1] else panel.rows[|panel.rows| - 1].time;
    if end < rebalances[k] then days == 0
    else days >= 0 && days * 86400 <= end - rebalances[k] < (days + 1) * 86400
  }

  lemma HoldingDaysAre(panel: Panel, rebalances: seq<int>, k: int, days: int)
    requires 0 <= k < |rebalances| && panel.rows != []
    ensures HeldFor(panel, rebalances, k, days) <==> days == HoldingDays(panel, rebalances, k)
  {
    WholeDays(WindowEnd(panel, rebalances, k) - rebalances[k], days);
  }

  lemma WholeDays(seconds: int, days: int)
    ensures var whole := seconds / SECONDS_PER_DAY;
      if seconds < 0 then whole <= 0
      else whole >= 0 && (days >= 0 && days * 86400 <= seconds < (days + 1) * 86400 <==> days == whole)
  {
    var whole := seconds / SECONDS_PER_DAY;
    assert whole * 86400 <= seconds < (whole + 1) * 86400;
  }

  /**
   * What a row of a run is booked with: the return of the governing book, and on the first row of its window what it
   * costs to trade into it and to hold it. Before the first rebalance there is neither.
   */
  ghost predicate RowIs(b: Setup, rebalances: seq<int>, j: int, gross: real, cost: real)
    requires 0 <= j < |b.panel.rows|
  {
    && ((forall k :: 0 <= k < |rebalances| ==> rebalances[k] >= b.panel.rows[j].time) ==> gross == 0.0 == cost)
    && forall k, days ::
         0 <= k < |rebalances| && Governs(b.panel, rebalances, k, j) && HeldFor(b.panel, rebalances, k, days) ==>
         var w := Book(b, rebalances, k);
         && gross == Total(Returns(b, w, j, b.panel.columns))
         && cost == if j == 0 || b.panel.rows[j - 1].time <= rebalances[k]
                    then b.turnoverCost(Book(b, rebalances, k - 1), w) + b.holdingCost(w, days) else 0.0
  }

  lemma RowIsBooked(b: Setup, rebalances: seq<int>, j: int)
    requires b.panel.Valid() && NoColumnTwice(b.panel.columns) && Ascending(rebalances) && 0 <= j < |b.panel.rows|
    ensures RowIs(b, rebalances, j, GrossAt(b, rebalances, j), CostAt(b, rebalances, j))
  {
    var t := b.panel.rows[j].time;
    if forall k :: 0 <= k < |rebalances| ==> rebalances[k] >= t {
      LatestBeforeIs(rebalances, t, -1);
    }
    forall k, days | 0 <= k < |rebalances| && Governs(b.panel, rebalances, k, j)
                     && HeldFor(b.panel, rebalances, k, days)
      ensures var w := Book(b, rebalances, k);
        && GrossAt(b, rebalances, j) == Total(Returns(b, w, j, b.panel.columns))
        && CostAt(b, rebalances, j) == if j == 0 || b.panel.rows[j - 1].time <= rebalances[k]
             then b.turnoverCost(Book(b, rebalances, k - 1), w) + b.holdingCost(w, days) else 0.0
    {
      LatestBeforeIs(rebalances, t, k);
      HoldingDaysAre(b.panel, rebalances, k, days);
      EarnedIsTotal(b, Book(b, rebalances, k), j, b.panel.columns);
    }
  }

  // ------------------------------------------------------------------- the loop

  /** Gross returns and costs when the first i rebalances have been accounted for. */
  ghost predicate Accounted(b: Setup, rebalances: seq<int>, i: int, gross: seq<real>, costs: seq<real>)
    requires |gross| == |costs| == |b.panel.rows|
  {
    forall j :: 0 <= j < |gross| ==> RowAccounted(b, rebalances, i, j, gross[j], costs[j])
  }

  ghost predicate RowAccounted(b: Setup, rebalances: seq<int>, i: int, j: int, gross: real, cost: real)
    requires 0 <= j < |b.panel.rows|
  {
    if LatestBefore(rebalances, b.panel.rows[j].time) < i
    then gross == GrossAt(b, rebalances, j) && cost == CostAt(b, rebalances, j)
    else gross == 0.0 && cost == 0.0
  }

  predicate InWindow(panel: Panel, rebalances: seq<int>, i: int, j: int)
    requires 0 <= i < |rebalances| && 0 <= j < |panel.rows|
  {
    rebalances[i] < panel.rows[j].time <= WindowEnd(panel, rebalances, i)
  }

  lemma RowInWindow(b: Setup, rebalances: seq<int>, i: int, j: int, gross: real, cost: real)
    requires b.panel.Valid() && Ascending(rebalances)
    requires 0 <= i < |rebalances| && 0 <= j < |b.panel.rows| && InWindow(b.panel, rebalances, i, j)
    requires RowAccounted(b, rebalances, i, j, gross, cost)
    ensures gross == 0.0 && cost == 0.0
    ensures RowAccounted(b, rebalances, i + 1, j, Earned(b, Book(b, rebalances, i), j, b.panel.columns),
                         if OpensWindow(b.panel, rebalances, j) then Charge(b, rebalances, i) else 0.0)
  {
    WindowIsLatest(b.panel, rebalances, i, j);
  }

  lemma RowOutsideWindow(b: Setup, rebalances: seq<int>, i: int, j: int, gross: real, cost: real)
    requires b.panel.Valid() && Ascending(rebalances)
    requires 0 <= i < |rebalances| && 0 <= j < |b.panel.rows| && !InWindow(b.panel, rebalances, i, j)
    requires RowAccounted(b, rebalances, i, j, gross, cost)
    ensures RowAccounted(b, rebalances, i + 1, j, gross, cost)
  {
    WindowIsLatest(b.panel, rebalances, i, j);
  }

  /** A row of the window opens it exactly when the row before is not past the rebalance. */
  lemma OpeningRow(panel: Panel, rebalances: seq<int>, i: int, j: int)
    requires panel.Valid() && Ascending(rebalances)
    requires 0 <= i < |rebalances| && 0 <= j < |panel.rows| && InWindow(panel, rebalances, i, j)
    ensures OpensWindow(panel, rebalances, j) <==> j == 0 || !InWindow(panel, rebalances, i, j - 1)
  {
    WindowIsLatest(panel, rebalances, i, j);
    if j > 0 {
      assert panel.rows[j - 1].time < panel.rows[j].time;
    }
  }

  /** The return of a book over row j, summed column by column. */
  method Contribution(b: Setup, w: Weights, j: int) returns (r: real)
    requires 0 <= j < |b.panel.rows|
    ensures r == Earned(b, w, j, b.panel.columns)
    ensures NoColumnTwice(b.panel.columns) ==> r == Total(Returns(b, w, j, b.panel.columns))
  {
    if NoColumnTwice(b.panel.columns) {
      EarnedIsTotal(b, w, j, b.panel.columns);
    }
    var columns := b.panel.columns;
    r := 0.0;
    for c := 0 to |columns|
      invariant r == Earned(b, w, j, columns[..c])
    {
      assert columns[..c + 1][..c] == columns[..c];
      r := r + Times(b.change(b.panel.rows[..j + 1], columns[c]), Weight(w, columns[c]));
    }
    assert columns[..|columns|] == columns;
  }

  /** Books the window of rebalance i: what its book w earns on each row, and the charge on the first. */
  method AccountWindow(b: Setup, rebalances: seq<int>, i: int, w: Weights, charge: real,
                       gross: array<real>, costs: array<real>)
    requires b.panel.Valid() && Ascending(rebalances) && 0 <= i < |rebalances|
    requires gross != costs && gross.Length == costs.Length == |b.panel.rows| > 0
    requires w == Book(b, rebalances, i) && charge == Charge(b, rebalances, i)
    requires Accounted(b, rebalances, i, gross[..], costs[..])
    modifies gross, costs
    ensures Accounted(b, rebalances, i + 1, gross[..], costs[..])
  {
    var n := gross.Length;
    var begun := false;
    for j := 0 to n
      invariant forall l :: 0 <= l < j ==> RowAccounted(b, rebalances, i + 1, l, gross[l], costs[l])
      invariant forall l :: j <= l < n ==> RowAccounted(b, rebalances, i, l, gross[l], costs[l])
      invariant begun ==> j > 0 && rebalances[i] < b.panel.rows[j - 1].time
      invariant begun <== j > 0 && InWindow(b.panel, rebalances, i, j - 1)
    {
      assert j > 0 ==> b.panel.rows[j - 1].time < b.panel.rows[j].time;
      if InWindow(b.panel, rebalances, i, j) {
        RowInWindow(b, rebalances, i, j, gross[j], costs[j]);
        OpeningRow(b.panel, rebalances, i, j);
        gross[j] := Contribution(b, w, j);
        if !begun {
          costs[j] := costs[j] + charge;
          begun := true;
        }
      } else {
        RowOutsideWindow(b, rebalances, i, j, gross[j], costs[j]);
      }
    }
  }

  lemma NothingAccounted(b: Setup, rebalances: seq<int>, gross: seq<real>, costs: seq<real>)
    requires |gross| == |costs| == |b.panel.rows|
    requires forall j :: 0 <= j < |gross| ==> gross[j] == 0.0 && costs[j] == 0.0
    ensures Accounted(b, rebalances, 0, gross, costs)
  {
  }

  lemma EverythingAccounted(b: Setup, rebalances: seq<int>, gross: seq<real>, costs: seq<real>)
    requires |gross| == |costs| == |b.panel.rows|
    requires Accounted(b, rebalances, |rebalances|, gross, costs)
    ensures forall j :: 0 <= j < |gross| ==>
      gross[j] == GrossAt(b, rebalances, j) && costs[j] == CostAt(b, rebalances, j)
  {
    forall j | 0 <= j < |gross| ensures gross[j] == GrossAt(b, rebalances, j) && costs[j] == CostAt(b, rebalances, j) {
      assert RowAccounted(b, rebalances, |rebalances|, j, gross[j], costs[j]);
    }
  }

  lemma RecordTurnover(turnover: map<int, real>, b: Setup, rebalances: seq<int>, i: int, amount: real)
    requires 0 <= i < |rebalances| && TurnoverOf(turnover, b, rebalances, i)
    requires amount == OneWayTurnover(Book(b, rebalances, i - 1), Book(b, rebalances, i))
    ensures TurnoverOf(turnover[rebalances[i] := amount], b, rebalances, i + 1)
  {
    assert rebalances[..i + 1] == rebalances[..i] + [rebalances[i]];
    forall k | 0 <= k < i && LastAt(rebalances[..i + 1], k)
      ensures LastAt(rebalances[..i], k) && rebalances[k] != rebalances[i]
    {
      LastOfLonger(rebalances, i, k);
    }
  }

  lemma LastOfLonger(rebalances: seq<int>, i: int, k: int)
    requires 0 <= k < i < |rebalances| && LastAt(rebalances[..i + 1], k)
    ensures LastAt(rebalances[..i], k) && rebalances[k] != rebalances[i]
  {
    assert rebalances[..i + 1][i] != rebalances[..i + 1][k];
    forall l | k < l < i ensures rebalances[..i][l] != rebalances[..i][k] {
      assert rebalances[..i + 1][l] != rebalances[..i + 1][k];
    }
  }

  /** The account of a whole run over ascending rebalance times. */
  method Simulate(b: Setup, rebalances: seq<int>) returns (gross: seq<real>, costs: seq<real>, turnover: map<int, real>)
    requires b.panel.Valid() && b.panel.rows != [] && Ascending(rebalances)
    ensures |gross| == |costs| == |b.panel.rows|
    ensures Accounted(b, rebalances, |rebalances|, gross, costs)
    ensures TurnoverOf(turnover, b, rebalances, |rebalances|)
  {
    var n := |b.panel.rows|;
    var earned, charged := new real[n](_ => 0.0), new real[n](_ => 0.0);
    turnover := map[];
    var prev: Weights := map[];
    NothingAccounted(b, rebalances, earned[..], charged[..]);
    for i := 0 to |rebalances|
      invariant prev == Book(b, rebalances, i - 1)
      invariant Accounted(b, rebalances, i, earned[..], charged[..])
      invariant TurnoverOf(turnover, b, rebalances, i)
    {
      var w := b.strategy(Visible(b.panel, rebalances[i]), rebalances[i]);
      var amount := SumValues(Changes(prev, w));
      RecordTurnover(turnover, b, rebalances, i, amount);
      turnover := turnover[rebalances[i] := amount];
      var charge := b.turnoverCost(prev, w) + b.holdingCost(w, HoldingDays(b.panel, rebalances, i));
      AccountWindow(b, rebalances, i, w, charge, earned, charged);
      prev := w;
    }
    gross, costs := earned[..], charged[..];
  }

  /** The whole run: fails on an empty schedule and on a panel without prices. */
  method RunBacktest(b: Setup, schedule: seq<int>) returns (outcome: Outcome)
    requires b.panel.Valid()
    ensures outcome == Failed(EmptySchedule) <==> schedule == []
    ensures outcome == Failed(NoPriceData) <==> schedule != [] && (b.panel.rows == [] || b.panel.columns == [])
    ensures outcome.Finished? ==>
      var rebalances := Sorted(schedule);
      && |outcome.gross| == |outcome.costs| == |b.panel.rows|
      && (forall j :: 0 <= j < |b.panel.rows| ==> outcome.gross[j] == GrossAt(b, rebalances, j))
      && (forall j :: 0 <= j < |b.panel.rows| ==> outcome.costs[j] == CostAt(b, rebalances, j))
      && TurnoverOf(outcome.turnover, b, rebalances, |rebalances|)
      && (NoColumnTwice(b.panel.columns) ==>
            forall j :: 0 <= j < |b.panel.rows| ==> RowIs(b, rebalances, j, outcome.gross[j], outcome.costs[j]))
  {
    if schedule == [] {
      return Failed(EmptySchedule);
    }
    if b.panel.rows == [] || b.panel.columns == [] {
      return Failed(NoPriceData);
    }
    var rebalances := Sorted(schedule);
    SortedAscends(schedule);
    var gross, costs, turnover := Simulate(b, rebalances);
    EverythingAccounted(b, rebalances, gross, costs);
    if NoColumnTwice(b.panel.columns) {
      forall j | 0 <= j < |b.panel.rows| ensures RowIs(b, rebalances, j, gross[j], costs[j]) {
        RowIsBooked(b, rebalances, j);
      }
    }
    return Finished(gross, costs, turnover);
  }

  function TimeKey(t: int): Ordering.SortKey {
    [Ordering.Number(t)]
  }

  /** The schedule in time order. */
  function Sorted(schedule: seq<int>): seq<int> {
    Ordering.Sort(schedule, TimeKey)
  }

  lemma SortedAscends(schedule: seq<int>)
    ensures Ascending(Sorted(schedule))
    ensures multiset(Sorted(schedule)) == multiset(schedule)
  {
    var sorted := Sorted(schedule);
    Ordering.SortSorts(schedule, TimeKey);
    Ordering.SortKeepsElements(schedule, TimeKey);
    forall i, j | 0 <= i < j < |sorted| ensures sorted[i] <= sorted[j] {
      assert Ordering.Le(TimeKey(sorted[i]), TimeKey(sorted[j]));
      Ordering.NumberKeyOrder(sorted[i], sorted[j]);
    }
  }
}
