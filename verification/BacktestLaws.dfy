/** What the backtest may not do: let a result depend on a price that came later. */
module BacktestLaws {
  import opened Prelude
  import opened Sums
  import opened Backtest

  /** Two panels over the same names that show the same prices up to time c. */
  ghost predicate Agree(p: Panel, q: Panel, c: int) {
    p.Valid() && q.Valid() && Visible(p, c) == Visible(q, c)
  }

  lemma {:induction false} VisibleNests(rows: seq<Row>, t: int, c: int)
    requires t <= c
    ensures VisibleRows(VisibleRows(rows, c), t) == VisibleRows(rows, t)
  {
    if rows != [] && rows[|rows| - 1].time > c {
      VisibleNests(rows[..|rows| - 1], t, c);
    }
  }

  /** Up to c the same weights are chosen. */
  lemma SameBooks(b: Setup, q: Panel, rebalances: seq<int>, c: int, k: int)
    requires Agree(b.panel, q, c) && k < |rebalances| && (k >= 0 ==> rebalances[k] <= c)
    ensures Book(b, rebalances, k) == Book(b.(panel := q), rebalances, k)
  {
    if k >= 0 {
      VisibleNests(b.panel.rows, rebalances[k], c);
      VisibleNests(q.rows, rebalances[k], c);
    }
  }

  lemma SameHistory(p: Panel, q: Panel, c: int, j: int)
    requires Agree(p, q, c) && 0 <= j < |p.rows| && p.rows[j].time <= c
    ensures j < |q.rows| && p.rows[..j + 1] == q.rows[..j + 1] && p.rows[j] == q.rows[j]
    ensures j > 0 ==> p.rows[j - 1] == q.rows[j - 1]
  {
    VisibleIsUpTo(p, c);
    VisibleIsUpTo(q, c);
    var n := |VisibleRows(p.rows, c)|;
    assert p.rows[..j + 1] == p.rows[..n][..j + 1];
    assert q.rows[..j + 1] == q.rows[..n][..j + 1];
    assert p.rows[..j + 1][j] == p.rows[j] && q.rows[..j + 1][j] == q.rows[j];
    if j > 0 {
      assert p.rows[..j + 1][j - 1] == p.rows[j - 1] && q.rows[..j + 1][j - 1] == q.rows[j - 1];
    }
  }

  lemma {:induction false} SameEarnings(b: Setup, q: Panel, w: Weights, j: int, columns: seq<string>)
    requires 0 <= j < |b.panel.rows| && j < |q.rows| && b.panel.rows[..j + 1] == q.rows[..j + 1]
    ensures Earned(b, w, j, columns) == Earned(b.(panel := q), w, j, columns)
  {
    if columns != [] {
      SameEarnings(b, q, w, j, columns[..|columns| - 1]);
    }
  }

  /** Up to c the gross returns are the same. */
  lemma SameGross(b: Setup, q: Panel, rebalances: seq<int>, c: int, j: int)
    requires Agree(b.panel, q, c) && Ascending(rebalances)
    requires 0 <= j < |b.panel.rows| && b.panel.rows[j].time <= c
    ensures j < |q.rows| && GrossAt(b, rebalances, j) == GrossAt(b.(panel := q), rebalances, j)
  {
    SameHistory(b.panel, q, c, j);
    var k := LatestBefore(rebalances, b.panel.rows[j].time);
    LatestBeforeIs(rebalances, b.panel.rows[j].time, k);
    if k >= 0 {
      SameBooks(b, q, rebalances, c, k);
      SameEarnings(b, q, Book(b, rebalances, k), j, b.panel.columns);
    }
  }

  /** The holding cost booked on row j, if the window it opens is the final one. */
  function FinalHolding(b: Setup, rebalances: seq<int>, j: int): real
    requires 0 <= j < |b.panel.rows|
  {
    var k := LatestBefore(rebalances, b.panel.rows[j].time);
    if OpensWindow(b.panel, rebalances, j) && k == |rebalances| - 1
    then b.holdingCost(Book(b, rebalances, k), HoldingDays(b.panel, rebalances, k)) else 0.0
  }

  lemma SamePredecessor(b: Setup, q: Panel, rebalances: seq<int>, c: int, k: int)
    requires Agree(b.panel, q, c) && Ascending(rebalances) && 0 <= k < |rebalances| && rebalances[k] <= c
    ensures Book(b, rebalances, k - 1) == Book(b.(panel := q), rebalances, k - 1)
  {
    assert k > 0 ==> rebalances[k - 1] <= rebalances[k];
    SameBooks(b, q, rebalances, c, k - 1);
  }

  /** Up to c the costs differ exactly by the holding cost of the final window, which runs to the end of the panel. */
  lemma SameCosts(b: Setup, q: Panel, rebalances: seq<int>, c: int, j: int)
    requires Agree(b.panel, q, c) && Ascending(rebalances)
    requires 0 <= j < |b.panel.rows| && b.panel.rows[j].time <= c
    ensures j < |q.rows|
    ensures CostAt(b, rebalances, j) - FinalHolding(b, rebalances, j)
      == CostAt(b.(panel := q), rebalances, j) - FinalHolding(b.(panel := q), rebalances, j)
  {
    SameHistory(b.panel, q, c, j);
    var k := LatestBefore(rebalances, b.panel.rows[j].time);
    LatestBeforeIs(rebalances, b.panel.rows[j].time, k);
    if k >= 0 {
      SameBooks(b, q, rebalances, c, k);
      SamePredecessor(b, q, rebalances, c, k);
    }
  }

  /**
   * No lookahead: on panels that agree up to c, every net return up to c is the same exactly when the holding
   * cost booked for the final window is.
   */
  lemma NoLookahead(b: Setup, q: Panel, rebalances: seq<int>, c: int, j: int)
    requires Agree(b.panel, q, c) && Ascending(rebalances)
    requires 0 <= j < |b.panel.rows| && b.panel.rows[j].time <= c
    ensures j < |q.rows|
    ensures GrossAt(b, rebalances, j) == GrossAt(b.(panel := q), rebalances, j)
    ensures GrossAt(b, rebalances, j) - CostAt(b, rebalances, j)
      == GrossAt(b.(panel := q), rebalances, j) - CostAt(b.(panel := q), rebalances, j)
      <==> FinalHolding(b, rebalances, j) == FinalHolding(b.(panel := q), rebalances, j)
  {
    SameGross(b, q, rebalances, c, j);
    SameCosts(b, q, rebalances, c, j);
  }

  /** Without holding costs there is no lookahead at all. */
  lemma NoLookaheadWithoutHoldingCosts(b: Setup, q: Panel, rebalances: seq<int>, c: int, j: int)
    requires Agree(b.panel, q, c) && Ascending(rebalances)
    requires forall w, days :: b.holdingCost(w, days) == 0.0
    requires 0 <= j < |b.panel.rows| && b.panel.rows[j].time <= c
    ensures j < |q.rows|
    ensures GrossAt(b, rebalances, j) - CostAt(b, rebalances, j)
      == GrossAt(b.(panel := q), rebalances, j) - CostAt(b.(panel := q), rebalances, j)
  {
    NoLookahead(b, q, rebalances, c, j);
  }

  /** The turnover recorded at times up to c is the same. */
  lemma SameTurnover(b: Setup, q: Panel, rebalances: seq<int>, c: int, k: int, recorded: map<int, real>,
                     other: map<int, real>)
    requires Agree(b.panel, q, c) && Ascending(rebalances)
    requires TurnoverOf(recorded, b, rebalances, |rebalances|)
    requires TurnoverOf(other, b.(panel := q), rebalances, |rebalances|)
    requires LastAt(rebalances, k) && rebalances[k] <= c
    ensures rebalances[k] in recorded && rebalances[k] in other && recorded[rebalances[k]] == other[rebalances[k]]
  {
    assert rebalances[..|rebalances|] == rebalances;
    SameBooks(b, q, rebalances, c, k);
    SamePredecessor(b, q, rebalances, c, k);
  }

  /** A free book that is charged one unit for each day it is held. */
  function ChargedByTheDay(panel: Panel): Setup {
    Setup(panel, (_, _) => map[], (_, _) => 0.0, (_, _) => 0.0, (_, days) => days as real)
  }

  /** What the only rebalance of such a run is charged is the length of the panel. */
  lemma ChargedToTheEnd(panel: Panel, days: int)
    requires panel.Valid() && panel.columns == ["A"] && panel.rows != [] && panel.rows[0].time > 0 && days >= 0
    requires days * SECONDS_PER_DAY <= panel.rows[|panel.rows| - 1].time < (days + 1) * SECONDS_PER_DAY
    ensures GrossAt(ChargedByTheDay(panel), [0], 0) == 0.0
    ensures CostAt(ChargedByTheDay(panel), [0], 0) == days as real
  {
    var b := ChargedByTheDay(panel);
    assert panel.columns[..|panel.columns| - 1] == [];
    assert Earned(b, Book(b, [0], 0), 0, panel.columns) == 0.0 + Times(0.0, 0.0);
    assert [0][..0] == [];
    assert LatestBefore([0], panel.rows[0].time) == 0;
    assert HoldingDays(panel, [0], 0) == days;
  }

  /** A holding cost does look ahead: nine more days at the end of the panel change the first day's net return. */
  lemma HoldingCostLooksAhead(p: Panel, q: Panel)
    requires p == Panel(["A"], [Row(1, map["A" := 1.0])])
    requires q == Panel(["A"], [Row(1, map["A" := 1.0]), Row(9 * SECONDS_PER_DAY, map["A" := 1.0])])
    ensures Agree(p, q, 1)
    ensures GrossAt(ChargedByTheDay(p), [0], 0) - CostAt(ChargedByTheDay(p), [0], 0) == 0.0
    ensures GrossAt(ChargedByTheDay(q), [0], 0) - CostAt(ChargedByTheDay(q), [0], 0) == -9.0
  {
    assert q.rows[..1] == p.rows;
    assert VisibleRows(q.rows, 1) == VisibleRows(p.rows, 1);
    ChargedToTheEnd(p, 0);
    ChargedToTheEnd(q, 9);
  }

  /** A time scheduled twice hides its trade: the turnover recorded for it is zero. */
  lemma RepeatedTimesHideTheTrade(b: Setup, rebalances: seq<int>, k: int, recorded: map<int, real>)
    requires Ascending(rebalances) && TurnoverOf(recorded, b, rebalances, |rebalances|)
    requires 0 < k && LastAt(rebalances, k) && rebalances[k - 1] == rebalances[k]
    ensures rebalances[k] in recorded && recorded[rebalances[k]] == 0.0
    ensures forall j :: 0 <= j < |b.panel.rows| ==> LatestBefore(rebalances, b.panel.rows[j].time) != k - 1
  {
    assert rebalances[..|rebalances|] == rebalances;
    StandingStillIsFree(Book(b, rebalances, k));
    assert Book(b, rebalances, k - 1) == Book(b, rebalances, k);
    forall j | 0 <= j < |b.panel.rows| ensures LatestBefore(rebalances, b.panel.rows[j].time) != k - 1 {
      LatestBeforeIs(rebalances, b.panel.rows[j].time, k - 1);
    }
  }

  // ------------------------------------------------------------------ total cost

  ghost function SumOf(s: seq<real>): real {
    if s == [] then 0.0 else SumOf(s[..|s| - 1]) + s[|s| - 1]
  }

  /** Some row lies in the window of rebalance k. */
  ghost predicate WindowNonEmpty(panel: Panel, rebalances: seq<int>, k: int) {
    exists j :: 0 <= j < |panel.rows| && LatestBefore(rebalances, panel.rows[j].time) == k
  }

  /** The charges of the first k rebalances, those with an empty window left out. */
  ghost function Charges(b: Setup, rebalances: seq<int>, k: nat): real
    requires k <= |rebalances| && b.panel.rows != []
  {
    if k == 0 then 0.0
    else
      Charges(b, rebalances, k - 1)
      + if WindowNonEmpty(b.panel, rebalances, k - 1) then Charge(b, rebalances, k - 1) else 0.0
  }

  /** The costs of the rows up to the window of rebalance k. */
  ghost function CostsUpTo(b: Setup, rebalances: seq<int>, k: nat): (s: seq<real>)
    ensures |s| == |b.panel.rows|
  {
    seq(|b.panel.rows|, j requires 0 <= j < |b.panel.rows| =>
      if LatestBefore(rebalances, b.panel.rows[j].time) < k then CostAt(b, rebalances, j) else 0.0)
  }

  lemma {:induction false} SumOfZeros(s: seq<real>)
    requires forall j :: 0 <= j < |s| ==> s[j] == 0.0
    ensures SumOf(s) == 0.0
  {
    if s != [] {
      SumOfZeros(s[..|s| - 1]);
    }
  }

  lemma {:induction false} SumOfChange(s: seq<real>, r: seq<real>, j: int)
    requires |s| == |r| && 0 <= j < |s| && forall l :: 0 <= l < |s| && l != j ==> s[l] == r[l]
    ensures SumOf(r) - SumOf(s) == r[j] - s[j]
  {
    if j < |s| - 1 {
      SumOfChange(s[..|s| - 1], r[..|s| - 1], j);
    } else {
      assert s[..|s| - 1] == r[..|s| - 1];
    }
  }

  /** The first row of the window of rebalance k. */
  lemma FirstOfWindow(panel: Panel, rebalances: seq<int>, k: int) returns (j: int)
    requires panel.Valid() && Ascending(rebalances) && 0 <= k < |rebalances| && WindowNonEmpty(panel, rebalances, k)
    ensures 0 <= j < |panel.rows| && LatestBefore(rebalances, panel.rows[j].time) == k
    ensures OpensWindow(panel, rebalances, j)
    ensures forall l :: 0 <= l < |panel.rows| && l != j && LatestBefore(rebalances, panel.rows[l].time) == k ==>
      !OpensWindow(panel, rebalances, l)
  {
    j :| 0 <= j < |panel.rows| && LatestBefore(rebalances, panel.rows[j].time) == k;
    while j > 0 && panel.rows[j - 1].time > rebalances[k]
      invariant 0 <= j < |panel.rows| && LatestBefore(rebalances, panel.rows[j].time) == k
    {
      WindowIsLatest(panel, rebalances, k, j);
      WindowIsLatest(panel, rebalances, k, j - 1);
      assert panel.rows[j - 1].time < panel.rows[j].time;
      j := j - 1;
    }
    WindowIsLatest(panel, rebalances, k, j);
    assert forall l :: 0 <= l < j ==> panel.rows[l].time <= rebalances[k];
    forall l | 0 <= l < |panel.rows| && l != j && LatestBefore(rebalances, panel.rows[l].time) == k
      ensures !OpensWindow(panel, rebalances, l)
    {
      WindowIsLatest(panel, rebalances, k, l);
      if l > j {
        assert panel.rows[j].time <= panel.rows[l - 1].time;
      }
    }
  }

  lemma {:induction false} CostsAreCharges(b: Setup, rebalances: seq<int>, k: nat)
    requires b.panel.Valid() && b.panel.rows != [] && Ascending(rebalances) && k <= |rebalances|
    ensures SumOf(CostsUpTo(b, rebalances, k)) == Charges(b, rebalances, k)
  {
    if k == 0 {
      SumOfZeros(CostsUpTo(b, rebalances, 0));
    } else {
      CostsAreCharges(b, rebalances, k - 1);
      var before, after := CostsUpTo(b, rebalances, k - 1), CostsUpTo(b, rebalances, k);
      if WindowNonEmpty(b.panel, rebalances, k - 1) {
        var j := FirstOfWindow(b.panel, rebalances, k - 1);
        SumOfChange(before, after, j);
      } else {
        assert before == after;
      }
    }
  }

  /** The total cost of a run is the sum of the charges of the rebalances whose window is not empty. */
  lemma TotalCostIsTheCharges(b: Setup, rebalances: seq<int>, costs: seq<real>)
    requires b.panel.Valid() && b.panel.rows != [] && Ascending(rebalances)
    requires |costs| == |b.panel.rows| && forall j :: 0 <= j < |costs| ==> costs[j] == CostAt(b, rebalances, j)
    ensures SumOf(costs) == Charges(b, rebalances, |rebalances|)
  {
    CostsAreCharges(b, rebalances, |rebalances|);
    assert CostsUpTo(b, rebalances, |rebalances|) == costs;
  }
}
