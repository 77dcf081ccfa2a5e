/** Grading logged predictions against what prices did over the bars that followed. */
module Grading {
  import opened Prelude
  import opened Ordering
  import opened Bitemporal
  import opened BitemporalLaws
  import Backtest

  // ---------------------------------------------------------------- price panels

  /** A time added to an ascending list of distinct times. */
  function AddTime(times: seq<int>, t: int): seq<int> {
    if times == [] || times[|times| - 1] < t then times + [t]
    else if times[|times| - 1] == t then times
    else AddTime(times[..|times| - 1], t) + [times[|times| - 1]]
  }

  function PriceTimes(rows: Rows): seq<int> {
    if rows == [] then []
    else
      var o := rows[|rows| - 1];
      var before := PriceTimes(rows[..|rows| - 1]);
      if o.value.Price? then AddTime(before, o.eventTime) else before
  }

  /** The prices at one time; the last row for a name wins. */
  function PricesAt(rows: Rows, t: int): map<string, real> {
    if rows == [] then map[]
    else
      var o := rows[|rows| - 1];
      var before := PricesAt(rows[..|rows| - 1], t);
      if o.value.Price? && o.eventTime == t then before[o.entityId := o.value.close] else before
  }

  function NameKey(name: string): SortKey {
    [Text(name)]
  }

  /** The names with a price, in order. */
  function PricedNames(rows: Rows): seq<string> {
    if rows == [] then []
    else
      var o := rows[|rows| - 1];
      var before := PricedNames(rows[..|rows| - 1]);
      if o.value.Price? && o.entityId !in before then Insert(before, o.entityId, NameKey) else before
  }

  ghost predicate HasPrice(rows: Rows, name: string) {
    exists o :: o in rows && o.value.Price? && o.entityId == name
  }

  lemma {:induction false} PricedNamesAre(rows: Rows)
    ensures Sorted(PricedNames(rows), NameKey) && NoRepeats(PricedNames(rows))
    ensures forall n :: n in PricedNames(rows) <==> HasPrice(rows, n)
  {
    if rows != [] {
      var init, o := rows[..|rows| - 1], rows[|rows| - 1];
      PricedNamesAre(init);
      assert rows == init + [o];
      forall n ensures HasPrice(rows, n) <==> HasPrice(init, n) || (o.value.Price? && o.entityId == n) {
      }
      if o.value.Price? && o.entityId !in PricedNames(init) {
        InsertKeepsSorted(PricedNames(init), o.entityId, NameKey);
        InsertKeepsNoRepeats(PricedNames(init), o.entityId, NameKey);
      }
    }
  }

  lemma NameKeyIdentifies(a: string, b: string)
    requires NameKey(a) == NameKey(b)
    ensures a == b
  {
    assert NameKey(a)[0] == Text(a) && NameKey(b)[0] == Text(b);
    assert |a| == |Text(a)| == |Text(b)| == |b|;
    forall i | 0 <= i < |a| ensures a[i] == b[i] {
      assert Text(a)[i] == a[i] as int && Text(b)[i] == b[i] as int;
    }
  }

  /** Two ordered lists of the same names are the same list. */
  lemma OrderedNamesAreUnique(a: seq<string>, b: seq<string>)
    requires Sorted(a, NameKey) && NoRepeats(a) && Sorted(b, NameKey) && NoRepeats(b)
    requires forall n :: n in a <==> n in b
    ensures a == b
  {
    SameWithoutRepeats(a, b);
    forall x, y | x in a && y in a && NameKey(x) == NameKey(y) ensures x == y {
      NameKeyIdentifies(x, y);
    }
    SortedIsUnique(a, b, NameKey);
  }

  /** Observations pivoted into one row a time, in time order. */
  function PriceFrame(rows: Rows): Backtest.Panel {
    var times := PriceTimes(rows);
    Backtest.Panel(
      PricedNames(rows),
      seq(|times|, i requires 0 <= i < |times| => Backtest.Row(times[i], PricesAt(rows, times[i]))))
  }

  ghost predicate StrictlyAscending(times: seq<int>) {
    forall i, j :: 0 <= i < j < |times| ==> times[i] < times[j]
  }

  lemma {:induction false} AddTimeAdds(times: seq<int>, t: int)
    requires StrictlyAscending(times)
    ensures StrictlyAscending(AddTime(times, t))
    ensures forall u :: u in AddTime(times, t) <==> u == t || u in times
  {
    if times != [] && times[|times| - 1] > t {
      var init, last := times[..|times| - 1], times[|times| - 1];
      AddTimeAdds(init, t);
      assert times == init + [last];
      forall i | 0 <= i < |AddTime(init, t)| ensures AddTime(init, t)[i] < last {
        assert AddTime(init, t)[i] in AddTime(init, t);
      }
    }
  }

  lemma {:induction false} PriceTimesAre(rows: Rows)
    ensures StrictlyAscending(PriceTimes(rows))
    ensures forall t :: t in PriceTimes(rows) <==> exists o :: o in rows && o.value.Price? && o.eventTime == t
  {
    if rows != [] {
      var init, o := rows[..|rows| - 1], rows[|rows| - 1];
      PriceTimesAre(init);
      assert rows == init + [o];
      if o.value.Price? {
        AddTimeAdds(PriceTimes(init), o.eventTime);
      }
    }
  }

  lemma PriceFrameIsValid(rows: Rows)
    ensures PriceFrame(rows).Valid()
  {
    PriceTimesAre(rows);
  }

  /** A row that carries a price of this name at this time. */
  predicate Prices(o: Observation, name: string, t: int) {
    o.value.Price? && o.entityId == name && o.eventTime == t
  }

  /** A cell of the panel holds the last price written for its name and time, if there is one. */
  lemma {:induction false} CellIsLastPrice(rows: Rows, name: string, t: int)
    ensures name in PricesAt(rows, t) <==> exists o :: o in rows && Prices(o, name, t)
    ensures forall i ::
      0 <= i < |rows| && Prices(rows[i], name, t) && (forall j :: i < j < |rows| ==> !Prices(rows[j], name, t)) ==>
      PricesAt(rows, t)[name] == rows[i].value.close
  {
    if rows != [] {
      var init, last := rows[..|rows| - 1], rows[|rows| - 1];
      CellIsLastPrice(init, name, t);
      assert rows == init + [last];
      if !Prices(last, name, t) {
        forall i | 0 <= i < |rows| && Prices(rows[i], name, t)
                   && (forall j :: i < j < |rows| ==> !Prices(rows[j], name, t))
          ensures PricesAt(rows, t)[name] == rows[i].value.close
        {
          assert init[i] == rows[i] && forall j :: i < j < |init| ==> init[j] == rows[j];
        }
      }
    }
  }

  // -------------------------------------------------------------- forward returns

  /** Compounded growth of a name over the rows from lo up to hi. */
  function Growth(panel: Backtest.Panel, change: (seq<Backtest.Row>, string) -> real, name: string, lo: nat,
                  hi: nat): real
    requires lo <= hi <= |panel.rows|
    decreases hi
  {
    if hi == lo then 1.0
    else Times(Growth(panel, change, name, lo, hi - 1), 1.0 + change(panel.rows[..hi], name))
  }

  /** The return over the first horizon bars strictly after s; none until all of them are there. */
  function ForwardReturn(panel: Backtest.Panel, change: (seq<Backtest.Row>, string) -> real, s: int, horizon: nat,
                         name: string): Option<real>
    requires panel.Valid()
  {
    Backtest.VisibleIsUpTo(panel, s);
    var pos := |Backtest.VisibleRows(panel.rows, s)|;
    if |panel.rows| - pos < horizon || name !in panel.columns then None
    else Some(Growth(panel, change, name, pos, pos + horizon) - 1.0)
  }

  /** The name is priced on row m. */
  predicate PricedOn(panel: Backtest.Panel, name: string, m: int) {
    0 <= m < |panel.rows| && name in panel.rows[m].prices && panel.rows[m].prices[name] > 0.0
  }

  /** The price on one row over that on another. */
  function PriceRatio(panel: Backtest.Panel, name: string, row: int, base: int): real
    requires PricedOn(panel, name, row) && PricedOn(panel, name, base)
  {
    panel.rows[row].prices[name] / panel.rows[base].prices[name]
  }

  /** From row lo - 1 up to hi the name is priced, and its change on row m is that of its price from the row before. */
  ghost predicate SimpleChange(panel: Backtest.Panel, change: (seq<Backtest.Row>, string) -> real, name: string,
                               lo: int, hi: int)
  {
    && (forall m :: lo - 1 <= m < hi ==> PricedOn(panel, name, m))
    && (forall m :: lo <= m < hi ==> ChangesFromBefore(panel, change, name, m))
  }

  ghost predicate ChangesFromBefore(panel: Backtest.Panel, change: (seq<Backtest.Row>, string) -> real, name: string,
                                    m: int)
  {
    && PricedOn(panel, name, m) && PricedOn(panel, name, m - 1)
    && change(panel.rows[..m + 1], name) == PriceRatio(panel, name, m, m - 1) - 1.0
  }

  /** Compounding the changes of a price gives the whole change of the price. */
  lemma {:induction false} GrowthIsPriceRatio(panel: Backtest.Panel, change: (seq<Backtest.Row>, string) -> real,
                                              name: string, lo: nat, hi: nat)
    requires 0 < lo <= hi <= |panel.rows| && SimpleChange(panel, change, name, lo, hi)
    ensures PricedOn(panel, name, lo - 1) && PricedOn(panel, name, hi - 1)
    ensures Growth(panel, change, name, lo, hi) == PriceRatio(panel, name, hi - 1, lo - 1)
    decreases hi
  {
    assert PricedOn(panel, name, lo - 1) && PricedOn(panel, name, hi - 1);
    if hi > lo {
      assert ChangesFromBefore(panel, change, name, hi - 1);
      GrowthIsPriceRatio(panel, change, name, lo, hi - 1);
      RatiosChain(panel.rows[lo - 1].prices[name], panel.rows[hi - 2].prices[name], panel.rows[hi - 1].prices[name]);
    } else {
      OneOverOne(panel.rows[lo - 1].prices[name]);
    }
  }

  lemma OneOverOne(a: real)
    requires a > 0.0
    ensures a / a == 1.0
  {
  }

  lemma RatiosChain(a: real, b: real, c: real)
    requires a > 0.0 && b > 0.0
    ensures Times(b / a, 1.0 + (c / b - 1.0)) == c / a
  {
    var x, y := b / a, c / b;
    assert x * a == b && y * b == c;
    assert (x * y) * a == c;
  }

  lemma OutcomeIsGrowth(panel: Backtest.Panel, change: (seq<Backtest.Row>, string) -> real, s: int, horizon: nat,
                        name: string, pos: nat)
    requires panel.Valid() && name in panel.columns && pos + horizon <= |panel.rows|
    requires (pos > 0 ==> panel.rows[pos - 1].time <= s) && (pos < |panel.rows| ==> s < panel.rows[pos].time)
    ensures ForwardReturn(panel, change, s, horizon, name) ==
      Some(Growth(panel, change, name, pos, pos + horizon) - 1.0)
  {
    Backtest.VisibleIsUpTo(panel, s);
    assert |Backtest.VisibleRows(panel.rows, s)| == pos;
  }

  /**
   * The outcome of a prediction made at s: the price a horizon of bars after s over the price of the last bar up to s,
   * less one.
   */
  lemma OutcomeIsPriceRatio(panel: Backtest.Panel, change: (seq<Backtest.Row>, string) -> real, s: int, horizon: nat,
                            name: string, pos: nat)
    requires panel.Valid() && name in panel.columns && 0 < pos && pos + horizon <= |panel.rows|
    requires panel.rows[pos - 1].time <= s && (pos < |panel.rows| ==> s < panel.rows[pos].time)
    requires SimpleChange(panel, change, name, pos, pos + horizon)
    ensures PricedOn(panel, name, pos - 1) && PricedOn(panel, name, pos + horizon - 1)
    ensures ForwardReturn(panel, change, s, horizon, name) ==
      Some(PriceRatio(panel, name, pos + horizon - 1, pos - 1) - 1.0)
  {
    OutcomeIsGrowth(panel, change, s, horizon, name, pos);
    GrowthIsPriceRatio(panel, change, name, pos, pos + horizon);
  }

  /** The bars from pos on are those of a tail strictly after s. */
  ghost predicate AllAfter(panel: Backtest.Panel, pos: int, s: int) {
    0 <= pos <= |panel.rows| && forall j :: pos <= j < |panel.rows| ==> panel.rows[j].time > s
  }

  /** At least a horizon of bars lies strictly after s. */
  ghost predicate Matured(panel: Backtest.Panel, s: int, horizon: nat) {
    exists pos :: AllAfter(panel, pos, s) && pos + horizon <= |panel.rows|
  }

  /** A prediction has an outcome exactly when its name is priced and its full horizon of bars has formed. */
  lemma OutcomeIffMatured(panel: Backtest.Panel, change: (seq<Backtest.Row>, string) -> real, s: int, horizon: nat,
                          name: string)
    requires panel.Valid()
    ensures ForwardReturn(panel, change, s, horizon, name).Some?
      <==> name in panel.columns && Matured(panel, s, horizon)
  {
    Backtest.VisibleIsUpTo(panel, s);
    var n := |Backtest.VisibleRows(panel.rows, s)|;
    assert AllAfter(panel, n, s);
    if pos :| AllAfter(panel, pos, s) && pos + horizon <= |panel.rows| {
      assert pos < |panel.rows| ==> panel.rows[pos].time > s;
    }
  }

  // --------------------------------------------------------------------- grading

  /** A prediction with its outcome. */
  datatype Grade = Grade(prediction: Observation, forward: real)

  function OfModel(model: string): Observation -> bool {
    (o: Observation) => o.ref == Some(model)
  }

  /** The predictions with an outcome, in order. */
  function Graded(predictions: Rows, panel: Backtest.Panel, change: (seq<Backtest.Row>, string) -> real,
                  horizon: nat): seq<Grade>
    requires panel.Valid()
  {
    if predictions == [] then []
    else
      var o := predictions[|predictions| - 1];
      var outcome := ForwardReturn(panel, change, o.eventTime, horizon, o.entityId);
      Graded(predictions[..|predictions| - 1], panel, change, horizon) +
      if outcome.Some? then [Grade(o, outcome.value)] else []
  }

  /** Scores the predictions known at asOf against every price in the store. */
  method GradePredictions(store: InMemoryStore, asOf: int, future: int, model: string, horizon: nat,
                          change: (seq<Backtest.Row>, string) -> real) returns (grades: seq<Grade>)
    ensures PriceFrame(AsOf(store.rows, future, OfDataset(PRICE_DATASET))).Valid()
    ensures grades == Graded(Filter(AsOf(store.rows, asOf, OfDataset(PREDICTION_DATASET)), OfModel(model)),
                             PriceFrame(AsOf(store.rows, future, OfDataset(PRICE_DATASET))), change, horizon)
  {
    var known := store.Query(asOf, OfDataset(PREDICTION_DATASET));
    var predictions := Filter(known, OfModel(model));
    var prices := store.Query(future, OfDataset(PRICE_DATASET));
    var panel := PriceFrame(prices);
    PriceFrameIsValid(prices);
    grades := [];
    for n := 0 to |predictions|
      invariant grades == Graded(predictions[..n], panel, change, horizon)
    {
      assert predictions[..n + 1][..n] == predictions[..n];
      var o := predictions[n];
      var forward := ForwardReturn(panel, change, o.eventTime, horizon, o.entityId);
      if forward.Some? {
        grades := grades + [Grade(o, forward.value)];
      }
    }
    assert predictions[..|predictions|] == predictions;
  }

  /** Graded are exactly the predictions that have matured, each with its own forward return. */
  lemma {:induction false} GradedAreMatured(predictions: Rows, panel: Backtest.Panel,
                                            change: (seq<Backtest.Row>, string) -> real, horizon: nat, g: Grade)
    requires panel.Valid()
    ensures g in Graded(predictions, panel, change, horizon) <==>
      && g.prediction in predictions
      && Some(g.forward) == ForwardReturn(panel, change, g.prediction.eventTime, horizon, g.prediction.entityId)
    ensures g in Graded(predictions, panel, change, horizon) ==>
      Matured(panel, g.prediction.eventTime, horizon) && g.prediction.entityId in panel.columns
  {
    if predictions != [] {
      GradedAreMatured(predictions[..|predictions| - 1], panel, change, horizon, g);
      assert predictions == predictions[..|predictions| - 1] + [predictions[|predictions| - 1]];
    }
    OutcomeIffMatured(panel, change, g.prediction.eventTime, horizon, g.prediction.entityId);
  }
}
