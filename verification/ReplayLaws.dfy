/** What the replay's sizing and account can see: the panel sliced by event time, and its leaks. */
module ReplayLaws {
  import opened Prelude
  import opened Ordering
  import opened Bitemporal
  import opened BitemporalLaws
  import opened Grading
  import opened Replay
  import opened ReplayRun
  import opened ReplayAccount
  import opened ReplayLoop
  import Backtest
  import BacktestLaws

  function HappenedBy(t: int): Observation -> bool {
    (o: Observation) => o.eventTime <= t
  }

  // -------------------------------------------------- slicing a panel by event time

  lemma OneMoreRow(rows: Rows, t: int)
    requires rows != []
    ensures var init, o := rows[..|rows| - 1], rows[|rows| - 1];
      Filter(rows, HappenedBy(t))
        == if o.eventTime <= t then Filter(init, HappenedBy(t)) + [o] else Filter(init, HappenedBy(t))
  {
  }

  lemma {:induction false} SlicedTimes(rows: Rows, t: int, u: int)
    ensures u in PriceTimes(Filter(rows, HappenedBy(t))) <==> u in PriceTimes(rows) && u <= t
  {
    PriceTimesAre(rows);
    PriceTimesAre(Filter(rows, HappenedBy(t)));
    FilterElements(rows, HappenedBy(t));
  }

  lemma PricesOfAppend(rows: Rows, o: Observation, u: int)
    ensures PricesAt(rows + [o], u)
      == if o.value.Price? && o.eventTime == u then PricesAt(rows, u)[o.entityId := o.value.close]
         else PricesAt(rows, u)
  {
    assert (rows + [o])[..|rows|] == rows;
  }

  lemma {:induction false} SlicedPrices(rows: Rows, t: int, u: int)
    requires u <= t
    ensures PricesAt(Filter(rows, HappenedBy(t)), u) == PricesAt(rows, u)
  {
    if rows != [] {
      var init, o := rows[..|rows| - 1], rows[|rows| - 1];
      SlicedPrices(init, t, u);
      SlicedPricesOfAppend(init, o, t, u);
      assert rows == init + [o];
    }
  }

  lemma SlicedPricesOfAppend(rows: Rows, o: Observation, t: int, u: int)
    requires u <= t && PricesAt(Filter(rows, HappenedBy(t)), u) == PricesAt(rows, u)
    ensures PricesAt(Filter(rows + [o], HappenedBy(t)), u) == PricesAt(rows + [o], u)
  {
    var early := Filter(rows, HappenedBy(t));
    FilterOfAppend(rows, o, HappenedBy(t));
    PricesOfAppend(rows, o, u);
    PricesOfAppend(early, o, u);
    assert o.eventTime > t ==> Filter(rows + [o], HappenedBy(t)) == early;
  }

  lemma EmptyTogether(a: seq<int>, b: seq<int>)
    requires forall u :: u in a ==> u in b
    ensures b == [] ==> a == []
  {
    if a != [] {
      var u := a[0];
      assert u in b;
    }
  }

  /** Two ascending lists of the same times are the same list. */
  lemma {:induction false} AscendingIsUnique(a: seq<int>, b: seq<int>)
    requires StrictlyAscending(a) && StrictlyAscending(b)
    requires forall u :: u in a <==> u in b
    ensures a == b
  {
    if a != [] && b != [] {
      var x, y := a[|a| - 1], b[|b| - 1];
      assert x in b && y in a;
      assert x == y;
      var i, j := a[..|a| - 1], b[..|b| - 1];
      forall u ensures u in i <==> u in j {
        assert u in i <==> u in a && u != x;
        assert u in j <==> u in b && u != y;
      }
      AscendingIsUnique(i, j);
      assert a == i + [x] && b == j + [y];
    } else {
      EmptyTogether(a, b);
      EmptyTogether(b, a);
    }
  }

  /** The times of a panel up to t are those of the observations that happened by t. */
  lemma TimesSlice(rows: Rows, t: int, n: nat)
    requires n <= |PriceTimes(rows)|
    requires forall i :: 0 <= i < |PriceTimes(rows)| ==> (i < n <==> PriceTimes(rows)[i] <= t)
    ensures PriceTimes(rows)[..n] == PriceTimes(Filter(rows, HappenedBy(t)))
  {
    var times, early := PriceTimes(rows), PriceTimes(Filter(rows, HappenedBy(t)));
    PriceTimesAre(rows);
    PriceTimesAre(Filter(rows, HappenedBy(t)));
    forall u ensures u in times[..n] <==> u in early {
      SlicedTimes(rows, t, u);
      if u in times && u <= t {
        var i :| 0 <= i < |times| && times[i] == u;
        assert times[..n][i] == u;
      }
    }
    AscendingIsUnique(times[..n], early);
  }

  /** The rows of a panel up to t are the panel of the observations that happened by t. */
  lemma PanelSlices(rows: Rows, t: int)
    ensures Backtest.VisibleRows(PriceFrame(rows).rows, t) == PriceFrame(Filter(rows, HappenedBy(t))).rows
  {
    var panel, sliced := PriceFrame(rows), PriceFrame(Filter(rows, HappenedBy(t)));
    PriceFrameIsValid(rows);
    Backtest.VisibleIsUpTo(panel, t);
    var n := |Backtest.VisibleRows(panel.rows, t)|;
    var times, early := PriceTimes(rows), PriceTimes(Filter(rows, HappenedBy(t)));
    forall i | 0 <= i < |times| ensures i < n <==> times[i] <= t {
      assert panel.rows[i].time == times[i];
    }
    TimesSlice(rows, t, n);
    forall i | 0 <= i < n ensures panel.rows[i] == sliced.rows[i] {
      assert times[..n][i] == early[i] == times[i];
      assert panel.rows[i].time <= t;
      SlicedPrices(rows, t, early[i]);
    }
  }

  lemma RestrictSlices(panel: Backtest.Panel, names: set<string>, t: int)
    requires panel.Valid()
    ensures Backtest.VisibleRows(Restrict(panel, names).rows, t) == Restrict(Backtest.Visible(panel, t), names).rows
  {
    var restricted := Restrict(panel, names);
    Backtest.VisibleIsUpTo(panel, t);
    Backtest.VisibleIsUpTo(restricted, t);
    SameCut(panel, restricted, t, |Backtest.VisibleRows(panel.rows, t)|, |Backtest.VisibleRows(restricted.rows, t)|);
  }

  /** The row up to which a panel is visible depends on its times alone. */
  lemma SameCut(p: Backtest.Panel, q: Backtest.Panel, t: int, n: nat, m: nat)
    requires |p.rows| == |q.rows| && n <= |p.rows| && m <= |q.rows|
    requires forall j :: 0 <= j < |p.rows| ==> p.rows[j].time == q.rows[j].time
    requires forall j :: 0 <= j < |p.rows| ==> (j < n <==> p.rows[j].time <= t)
    requires forall j :: 0 <= j < |q.rows| ==> (j < m <==> q.rows[j].time <= t)
    ensures n == m
  {
    var low := if n < m then n else m;
    if low < |p.rows| {
      assert p.rows[low].time == q.rows[low].time;
    }
  }

  lemma {:induction false} FiltersCommute(s: seq<Observation>, p: Observation -> bool, q: Observation -> bool)
    ensures Filter(Filter(s, p), q) == Filter(Filter(s, q), p)
  {
    if s != [] {
      var init, last := s[..|s| - 1], s[|s| - 1];
      FiltersCommute(init, p, q);
      FilterOfAppend(Filter(init, p), last, q);
      FilterOfAppend(Filter(init, q), last, p);
      assert !p(last) ==> Filter(s, p) == Filter(init, p);
      assert p(last) ==> Filter(s, p) == Filter(init, p) + [last];
      assert !q(last) ==> Filter(s, q) == Filter(init, q);
      assert q(last) ==> Filter(s, q) == Filter(init, q) + [last];
    }
  }

  /** Every price of the history became known by t exactly if it happened by t. */
  ghost predicate PricesAreTimely(history: seq<Observation>, t: int) {
    forall o :: o in history && IsPrice(o) ==> (o.knowledgeTime <= t <==> o.eventTime <= t)
  }

  /** Slicing the history's prices by event time leaves what is known by then exactly if the prices are timely. */
  lemma TimelyPricesSliceIff(history: seq<Observation>, t: int)
    ensures Filter(Filter(history, IsPrice), HappenedBy(t)) == Filter(Filter(history, KnownBy(t)), IsPrice)
      <==> PricesAreTimely(history, t)
  {
    var happened := Filter(Filter(history, IsPrice), HappenedBy(t));
    var known := Filter(Filter(history, KnownBy(t)), IsPrice);
    FilterElements(history, IsPrice);
    FilterElements(Filter(history, IsPrice), HappenedBy(t));
    FilterElements(history, KnownBy(t));
    FilterElements(Filter(history, KnownBy(t)), IsPrice);
    if PricesAreTimely(history, t) {
      FilterCongruence(Filter(history, IsPrice), HappenedBy(t), KnownBy(t));
      FiltersCommute(history, IsPrice, KnownBy(t));
    }
    if happened == known {
      forall o | o in history && IsPrice(o) ensures o.knowledgeTime <= t <==> o.eventTime <= t {
        assert o in happened <==> o in known;
      }
    }
  }

  lemma VisibleRowsOfFull(r: Replayed, t: int)
    requires r.Loaded()
    ensures Backtest.VisibleRows(r.full.rows, t)
      == Restrict(Backtest.Panel(PricedNames(Filter(r.history, IsPrice)),
                                 PriceFrame(Filter(Filter(r.history, IsPrice), HappenedBy(t))).rows),
                  r.learner.names).rows
  {
    var prices := Filter(r.history, IsPrice);
    PriceFrameIsValid(prices);
    RestrictSlices(PriceFrame(prices), r.learner.names, t);
    PanelSlices(prices, t);
  }

  /** Of the universe, the two histories price the same names, whenever and in whatever order. */
  ghost predicate PriceTheSameNames(r: Replayed, s: Replayed) {
    forall n :: n in r.learner.names ==>
      (HasPrice(Filter(r.history, IsPrice), n) <==> HasPrice(Filter(s.history, IsPrice), n))
  }

  lemma SameColumnsIff(r: Replayed, s: Replayed)
    requires r.Loaded() && s.Loaded() && SameSetup(r, s)
    ensures r.full.columns == s.full.columns <==> PriceTheSameNames(r, s)
  {
    FullColumnsAre(r);
    FullColumnsAre(s);
    if PriceTheSameNames(r, s) {
      OrderedNamesAreUnique(r.full.columns, s.full.columns);
    }
    if r.full.columns == s.full.columns {
      forall n | n in r.learner.names
        ensures HasPrice(Filter(r.history, IsPrice), n) <==> HasPrice(Filter(s.history, IsPrice), n)
      {
        assert n in r.full.columns <==> n in s.full.columns;
      }
    }
  }

  /**
   * With timely prices, two histories that agree on what is known by c show sizing the same up to c exactly if they
   * price the same names at all: the rows are then decided by what is known by c, the columns are not.
   */
  lemma SizingSeesTheKnownIff(r: Replayed, s: Replayed, c: int)
    requires r.Loaded() && s.Loaded() && AgreeUpTo(r, s, c)
    requires PricesAreTimely(r.history, c) && PricesAreTimely(s.history, c)
    ensures BacktestLaws.Agree(r.full, s.full, c) <==> PriceTheSameNames(r, s)
  {
    TimelyPricesSliceIff(r.history, c);
    TimelyPricesSliceIff(s.history, c);
    SameVisibleRows(r, s, c);
    FullPanelIsValid(r);
    FullPanelIsValid(s);
    SameColumnsIff(r, s);
  }

  lemma SameVisibleRows(r: Replayed, s: Replayed, c: int)
    requires r.Loaded() && s.Loaded() && SameSetup(r, s)
    requires Filter(Filter(r.history, IsPrice), HappenedBy(c)) == Filter(Filter(s.history, IsPrice), HappenedBy(c))
    ensures Backtest.VisibleRows(r.full.rows, c) == Backtest.VisibleRows(s.full.rows, c)
  {
    VisibleRowsOfFull(r, c);
    VisibleRowsOfFull(s, c);
  }

  // ---------------------------------------------------------- no lookahead in the account

  /** Up to c the same books are chosen. */
  lemma SameBook(r: Replayed, s: Replayed, c: int, k: nat)
    requires r.Valid() && s.Valid() && AgreeUpTo(r, s, c) && BacktestLaws.Agree(r.full, s.full, c)
    requires k < |r.rebalances| && r.rebalances[k] <= c
    ensures r.Book(k) == s.Book(k)
  {
    LaterNewsDoesNotInterfere(r, s, c, k);
    BacktestLaws.VisibleNests(r.full.rows, r.rebalances[k], c);
    BacktestLaws.VisibleNests(s.full.rows, s.rebalances[k], c);
  }

  /** Two accounts whose books agree as far as the row is concerned have the same entry for it. */
  lemma SameEntry(a: Account, b: Account, c: int, j: int)
    requires a.Valid() && b.Valid() && a.rebalances == b.rebalances && |a.books| == |b.books|
    requires a.change == b.change && a.turnoverCost == b.turnoverCost
    requires BacktestLaws.Agree(a.panel, b.panel, c) && 0 <= j < |a.panel.rows| && a.panel.rows[j].time <= c
    requires forall k :: 0 <= k < |a.books| && a.rebalances[k] <= c ==> a.books[k] == b.books[k]
    ensures j < |b.panel.rows| && a.Entry(0, |a.books|, j) == b.Entry(0, |b.books|, j)
  {
    BacktestLaws.SameHistory(a.panel, b.panel, c, j);
    var k := a.LatestAt(j);
    Backtest.LatestBeforeIs(a.rebalances, a.panel.rows[j].time, k);
    if 0 <= k < |a.books| {
      assert k > 0 ==> a.rebalances[k - 1] <= a.rebalances[k];
      BacktestLaws.SameEarnings(a.Market(), b.panel, a.books[k], j, a.panel.columns);
      assert a.Market().(panel := b.panel) == b.Market();
    }
  }

  /**
   * No lookahead: if the histories agree on what is known by c and the panels on what happened by c, every
   * day's entry up to c is the same.
   */
  lemma ReplayHasNoLookahead(r: Replayed, s: Replayed, c: int, j: int)
    requires r.Valid() && s.Valid() && AgreeUpTo(r, s, c) && BacktestLaws.Agree(r.full, s.full, c)
    requires 0 <= j < |r.full.rows| && r.full.rows[j].time <= c
    ensures j < |s.full.rows|
    ensures AccountOf(r, |r.rebalances|).Entry(0, |r.rebalances|, j)
      == AccountOf(s, |s.rebalances|).Entry(0, |s.rebalances|, j)
  {
    var n := |r.rebalances|;
    AccountIsValid(r, n);
    AccountIsValid(s, n);
    forall k | 0 <= k < n && r.rebalances[k] <= c ensures Books(r, n)[k] == Books(s, n)[k] {
      CollectAt(BookOf(r), n, k);
      CollectAt(BookOf(s), n, k);
      SameBook(r, s, c, k);
    }
    SameEntry(AccountOf(r, n), AccountOf(s, n), c, j);
  }

  /**
   * No lookahead from the histories alone: if they agree on what is known by c, price the same names, and price them
   * on time, every day's entry up to c is the same. The lemmas below show that neither condition can be dropped.
   */
  lemma TimelyReplayHasNoLookahead(r: Replayed, s: Replayed, c: int, j: int)
    requires r.Valid() && s.Valid() && r.Loaded() && s.Loaded() && AgreeUpTo(r, s, c)
    requires PricesAreTimely(r.history, c) && PricesAreTimely(s.history, c) && PriceTheSameNames(r, s)
    requires 0 <= j < |r.full.rows| && r.full.rows[j].time <= c
    ensures j < |s.full.rows|
    ensures AccountOf(r, |r.rebalances|).Entry(0, |r.rebalances|, j)
      == AccountOf(s, |s.rebalances|).Entry(0, |s.rebalances|, j)
  {
    SizingSeesTheKnownIff(r, s, c);
    ReplayHasNoLookahead(r, s, c, j);
  }

  // ------------------------------------------------------------------- the leaks

  function PriceRow(name: string, eventTime: int, knowledgeTime: int, revision: int, close: real): Observation {
    Observation(
      "vendor", PRICE_DATASET, "equity", name, None, eventTime, knowledgeTime, revision, Price(close), Random(0))
      .WithDeterministicId()
  }

  /** The prices of "A" at time 1 before and after the correction. */
  lemma CorrectedFrame(a: Observation, b: Observation)
    requires a == PriceRow("A", 1, 1, 0, 100.0) && b == PriceRow("A", 1, 9, 1, 120.0)
    ensures PriceFrame([a]).rows == [Backtest.Row(1, map["A" := 100.0])]
    ensures PriceFrame([a, b]).rows == [Backtest.Row(1, map["A" := 120.0])]
  {
    FirstOfTwo(a, b);
    assert PriceTimes([a]) == [1];
    assert AddTime([1], 1) == [1];
    assert PriceTimes([a, b]) == [1];
    assert PricesAt([a], 1) == map["A" := 100.0];
    assert PricesAt([a, b], 1) == map["A" := 120.0];
  }

  /** What sizing sees of a history of prices with a single date. */
  lemma SinglePrice(history: seq<Observation>, close: real)
    requires Filter(history, IsPrice) == history
    requires PriceFrame(history).rows == [Backtest.Row(1, map["A" := close])]
    ensures var seen := Backtest.Visible(FullPanel(history, {"A"}), 5);
      |seen.rows| == 1 && "A" in seen.rows[0].prices && seen.rows[0].prices["A"] == close
  {
  }

  lemma CorrectionIsUnknown(r: Replayed, s: Replayed)
    requires SameSetup(r, s) && r.history == [PriceRow("A", 1, 1, 0, 100.0)]
    requires s.history == [PriceRow("A", 1, 1, 0, 100.0), PriceRow("A", 1, 9, 1, 120.0)]
    ensures AgreeUpTo(r, s, 5)
  {
    FilterOfTwo(PriceRow("A", 1, 1, 0, 100.0), PriceRow("A", 1, 9, 1, 120.0), KnownBy(5));
  }

  /** A correction published after c already changes what sizing sees up to c. */
  lemma LateCorrectionsReachSizing(r: Replayed, s: Replayed)
    requires r.history == [PriceRow("A", 1, 1, 0, 100.0)] && r.learner.names == {"A"}
    requires SameSetup(r, s) && r.Loaded() && s.Loaded()
    requires s.history == [PriceRow("A", 1, 1, 0, 100.0), PriceRow("A", 1, 9, 1, 120.0)]
    ensures AgreeUpTo(r, s, 5)
    ensures Backtest.Visible(r.full, 5) != Backtest.Visible(s.full, 5)
  {
    var a, b := PriceRow("A", 1, 1, 0, 100.0), PriceRow("A", 1, 9, 1, 120.0);
    CorrectionIsUnknown(r, s);
    FilterOfTwo(a, b, IsPrice);
    CorrectedFrame(a, b);
    SinglePrice(r.history, 100.0);
    SinglePrice(s.history, 120.0);
  }

  /** The columns of the full panel before and after the listing. */
  lemma ListedColumns(r: Replayed, names: seq<string>)
    requires r.Loaded() && r.learner.names == {"A", "B"} && (names == ["A"] || names == ["A", "B"])
    requires PricedNames(Filter(r.history, IsPrice)) == names
    ensures Backtest.Visible(r.full, 5).columns == names
  {
    FilterOfAll(names, Among(r.learner.names));
  }

  lemma ListingIsUnknown(r: Replayed, s: Replayed, a: Observation, b: Observation)
    requires SameSetup(r, s) && r.history == [a] && s.history == [a, b]
    requires a.knowledgeTime <= 5 < b.knowledgeTime
    ensures AgreeUpTo(r, s, 5)
  {
    FilterOfAll([a], KnownBy(5));
    FilterOfTwo(a, b, KnownBy(5));
  }

  /** A name first priced after c is already a column of what sizing sees up to c. */
  lemma LaterListingsReachSizing(r: Replayed, s: Replayed)
    requires r.history == [PriceRow("A", 1, 1, 0, 100.0)] && r.learner.names == {"A", "B"}
    requires SameSetup(r, s) && r.Loaded() && s.Loaded()
    requires s.history == [PriceRow("A", 1, 1, 0, 100.0), PriceRow("B", 9, 9, 0, 50.0)]
    ensures AgreeUpTo(r, s, 5)
    ensures Backtest.Visible(r.full, 5).columns == ["A"] && Backtest.Visible(s.full, 5).columns == ["A", "B"]
  {
    var a, b := PriceRow("A", 1, 1, 0, 100.0), PriceRow("B", 9, 9, 0, 50.0);
    ListingIsUnknown(r, s, a, b);
    FilterOfAll([a], IsPrice);
    FilterOfTwo(a, b, IsPrice);
    OneName(a);
    TwoNames(a, b);
    ListedColumns(r, ["A"]);
    ListedColumns(s, ["A", "B"]);
  }

  lemma OneName(a: Observation)
    requires a.value.Price?
    ensures PricedNames([a]) == [a.entityId]
  {
    assert [a][..0] == [];
    assert PricedNames([]) == [];
    assert Insert([], a.entityId, NameKey) == [a.entityId];
  }

  lemma TwoNames(a: Observation, b: Observation)
    requires a.value.Price? && b.value.Price? && a.entityId == "A" && b.entityId == "B"
    ensures PricedNames([a, b]) == ["A", "B"]
  {
    FirstOfTwo(a, b);
    OneName(a);
    assert Text("A") == [65] && Text("B") == [66];
    assert NameKey("A") == [Number(65)] && NameKey("B") == [Number(66)];
    NumberKeyOrder(65, 66);
    assert Insert(["A"], "B", NameKey) == ["A"] + ["B"];
  }

  lemma FirstOfTwo(a: Observation, b: Observation)
    ensures [a, b][..1] == [a] && [a][..0] == []
  {
  }
}
