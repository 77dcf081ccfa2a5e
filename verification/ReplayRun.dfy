/** The replay loop: reveal, grade, rank, log, size and account, rebalance by rebalance. */
module ReplayRun {
  import opened Prelude
  import opened Ordering
  import opened Bitemporal
  import opened BitemporalLaws
  import opened Grading
  import opened Replay
  import Backtest

  /** A name and its score, as the scorer ranks them. */
  datatype Record = Record(symbol: string, probability: real)

  /** The learning system: how it ranks from what the store holds, and how it sizes from prices and ranks. */
  datatype Learner = Learner(
    rank: (Rows, seq<Grade>, int) -> seq<Record>,
    size: (Backtest.Panel, seq<Record>) -> Backtest.Weights,
    change: (seq<Backtest.Row>, string) -> real,
    turnoverCost: (Backtest.Weights, Backtest.Weights) -> real,
    horizon: nat,
    model: string,
    names: set<string>)

  /** The row a prediction is logged as. */
  function Logged(r: Record, t: int, l: Learner): Observation {
    Observation("forecast", PREDICTION_DATASET, "equity", r.symbol, Some(l.model),
      t, t, 0, Value.Prediction(r.probability, l.horizon), Random(0)).WithDeterministicId()
  }

  /** A prediction says of which name, when, with what probability and over what horizon. */
  lemma LoggedRowIs(r: Record, t: int, l: Learner)
    ensures var o := Logged(r, t, l);
      && o.dataset == PREDICTION_DATASET && o.entityId == r.symbol && o.eventTime == o.knowledgeTime == t
      && o.ref == Some(l.model) && o.value == Value.Prediction(r.probability, l.horizon)
  {
  }

  function LoggedAll(rs: seq<Record>, t: int, l: Learner): seq<Observation> {
    seq(|rs|, i requires 0 <= i < |rs| => Logged(rs[i], t, l))
  }

  /** All prices of the universe, as the run loads them once. */
  function FullPanel(history: seq<Observation>, names: set<string>): Backtest.Panel {
    Restrict(PriceFrame(Filter(history, IsPrice)), names)
  }

  /** What the learner makes of a store at one time: the outcomes graded, and the names ranked by them. */
  datatype Insight = Insight(grades: seq<Grade>, ranked: seq<Record>)

  /** The prices in a store, whenever they became known. */
  function PricesIn(rows: Rows, future: int): (panel: Backtest.Panel)
    ensures panel.Valid()
  {
    PriceFrameIsValid(AsOf(rows, future, OfDataset(PRICE_DATASET)));
    PriceFrame(AsOf(rows, future, OfDataset(PRICE_DATASET)))
  }

  /** The outcomes of the predictions known at t, against all prices in the store, and the ranking made of them. */
  function InsightOf(l: Learner, future: int, rows: Rows, t: int): Insight {
    var predictions := Filter(AsOf(rows, t, OfDataset(PREDICTION_DATASET)), OfModel(l.model));
    var grades := Graded(predictions, PricesIn(rows, future), l.change, l.horizon);
    Insight(grades, l.rank(rows, grades, t))
  }

  /** The observations of a history that become known between rebalances. */
  function NewsOf(history: seq<Observation>, rebalances: seq<int>, k: nat): seq<Observation> {
    if k >= |rebalances| then []
    else
      var past := if k == 0 then [] else Prefix(history, rebalances[k - 1]);
      var now := Prefix(history, rebalances[k]);
      if |past| <= |now| then now[|past|..] else []
  }

  /**
   * A replay: the history and its full price panel, the learner, the rebalances in order, a time after everything;
   * the learner's insight as a function of store and time, and what is known of the history by a time, or becomes
   * known for a rebalance.
   */
  datatype Replayed = Replayed(
    history: seq<Observation>, full: Backtest.Panel, learner: Learner, rebalances: seq<int>, future: int,
    insight: (Rows, int) -> Insight, known: int -> seq<Observation>, news: nat -> seq<Observation>) {

    ghost predicate Loaded() {
      full == FullPanel(history, learner.names)
    }

    /** The insight is the learner's. */
    ghost predicate Learns() {
      forall rows, t {:trigger InsightOf(learner, future, rows, t)} ::
        insight(rows, t) == InsightOf(learner, future, rows, t)
    }

    /** Known and news are the history's, in the order it became known. */
    ghost predicate Reveals() {
      && (forall t {:trigger Prefix(history, t)} :: known(t) == Prefix(history, t))
      && (forall k: nat {:trigger NewsOf(history, rebalances, k)} :: news(k) == NewsOf(history, rebalances, k))
    }

    /** The news of rebalance k complete what was known before it. */
    ghost predicate Completes(k: nat)
      requires k < |rebalances|
    {
      Past(k) + news(k) == known(rebalances[k]) && Deterministic(known(rebalances[k]))
    }

    ghost predicate Unfolds() {
      forall k: nat {:trigger Completes(k)} :: k < |rebalances| ==> Completes(k)
    }

    ghost predicate Valid() {
      && Learns() && Reveals()
      && Deterministic(history)
      && Backtest.Ascending(rebalances)
      && (forall o :: o in history ==> o.knowledgeTime <= future)
      && (forall i :: 0 <= i < |rebalances| ==> rebalances[i] <= future)
    }

    /** What has been revealed before rebalance k. */
    function Past(k: nat): seq<Observation>
      requires k <= |rebalances|
    {
      if k == 0 then [] else known(rebalances[k - 1])
    }

    /** The prices in a store, whenever they became known. */
    function Prices(rows: Rows): (panel: Backtest.Panel)
      ensures panel.Valid()
    {
      PricesIn(rows, future)
    }

    /** The outcomes a store yields at time t. */
    function GradesOf(rows: Rows, t: int): seq<Grade> {
      insight(rows, t).grades
    }

    function RankedOf(rows: Rows, t: int): seq<Record> {
      insight(rows, t).ranked
    }

    /** A store with the predictions made from it at time t logged. */
    function WithPredictions(rows: Rows, t: int): Rows {
      UpsertAll(rows, LoggedAll(RankedOf(rows, t), t, learner))
    }

    /** The store when rebalance k starts. */
    function Store(k: nat): Rows
      requires k <= |rebalances|
    {
      if k == 0 then [] else WithPredictions(UpsertAll(Store(k - 1), news(k - 1)), rebalances[k - 1])
    }

    /** The store once rebalance k's news are revealed. */
    function Informed(k: nat): Rows
      requires k < |rebalances|
    {
      UpsertAll(Store(k), news(k))
    }

    function Ranked(k: nat): seq<Record>
      requires k < |rebalances|
    {
      RankedOf(Informed(k), rebalances[k])
    }

    function Book(k: nat): Backtest.Weights
      requires k < |rebalances|
    {
      learner.size(Backtest.Visible(full, rebalances[k]), Ranked(k))
    }
  }

  lemma InsightIs(r: Replayed, rows: Rows, t: int)
    requires r.Learns()
    ensures r.insight(rows, t) == InsightOf(r.learner, r.future, rows, t)
  {
  }

  lemma KnownIs(r: Replayed, t: int)
    requires r.Reveals()
    ensures r.known(t) == Prefix(r.history, t)
  {
  }

  lemma NewsIs(r: Replayed, k: nat)
    requires r.Reveals()
    ensures r.news(k) == NewsOf(r.history, r.rebalances, k)
  {
  }

  predicate IsPrice(o: Observation) {
    o.dataset == PRICE_DATASET
  }

  function Among(names: set<string>): string -> bool {
    (c: string) => c in names
  }

  function Restrict(panel: Backtest.Panel, names: set<string>): Backtest.Panel {
    Backtest.Panel(
      Filter(panel.columns, Among(names)),
      seq(|panel.rows|, i requires 0 <= i < |panel.rows| =>
        Backtest.Row(panel.rows[i].time, map c | c in panel.rows[i].prices && c in names :: panel.rows[i].prices[c])))
  }

  lemma FullPanelIsValid(r: Replayed)
    requires r.Loaded()
    ensures r.full.Valid()
  {
    PriceFrameIsValid(Filter(r.history, IsPrice));
  }

  /** The columns of the full panel are the names of the universe with a price, in order. */
  lemma FullColumnsAre(r: Replayed)
    requires r.Loaded()
    ensures Sorted(r.full.columns, NameKey) && NoRepeats(r.full.columns)
    ensures forall n :: n in r.full.columns <==> n in r.learner.names && HasPrice(Filter(r.history, IsPrice), n)
  {
    var names := PricedNames(Filter(r.history, IsPrice));
    PricedNamesAre(Filter(r.history, IsPrice));
    FilterKeepsOrder(names, NameKey, Among(r.learner.names));
    FilterElements(names, Among(r.learner.names));
  }

  /** Its cells are those of the pivoted prices in the names of the universe. */
  lemma FullCellsAre(r: Replayed, i: nat, name: string)
    requires r.Loaded() && name in r.learner.names && i < |r.full.rows|
    ensures var rows := PriceFrame(Filter(r.history, IsPrice)).rows;
      && |rows| == |r.full.rows| && r.full.rows[i].time == rows[i].time
      && (name in r.full.rows[i].prices <==> name in rows[i].prices)
      && (name in rows[i].prices ==> r.full.rows[i].prices[name] == rows[i].prices[name])
  {
  }

  // ---------------------------------------------------- the store knows the past

  lemma {:induction false} UpsertAllAppend(rows: Rows, a: seq<Observation>, b: seq<Observation>)
    ensures UpsertAll(UpsertAll(rows, a), b) == UpsertAll(rows, a + b)
  {
    if b == [] {
      assert a + b == a;
    } else {
      UpsertAllAppend(rows, a, b[..|b| - 1]);
      assert (a + b)[..|a + b| - 1] == a + b[..|b| - 1];
    }
  }

  /** Two stores hold the same rows, predictions aside. */
  ghost predicate SameFacts(a: Rows, b: Rows) {
    forall o: Observation :: o.dataset != PREDICTION_DATASET ==> (o in a <==> o in b)
  }

  lemma {:induction false} SameFactsGrow(a: Rows, b: Rows, os: seq<Observation>)
    requires WellFormed(a) && WellFormed(b) && Deterministic(os) && SameFacts(a, b)
    ensures WellFormed(UpsertAll(a, os)) && WellFormed(UpsertAll(b, os))
    ensures SameFacts(UpsertAll(a, os), UpsertAll(b, os))
  {
    UpsertAllWellFormed(a, os);
    UpsertAllWellFormed(b, os);
    if os != [] {
      var init, last := os[..|os| - 1], os[|os| - 1];
      assert Deterministic(init);
      SameFactsGrow(a, b, init);
      UpsertElements(UpsertAll(a, init), last);
      UpsertElements(UpsertAll(b, init), last);
    }
  }

  /** Logging predictions leaves every other row alone. */
  lemma {:induction false} PredictionsLeaveFacts(rows: Rows, os: seq<Observation>)
    requires WellFormed(rows) && Deterministic(os)
    requires forall o :: o in os ==> o.dataset == PREDICTION_DATASET
    ensures WellFormed(UpsertAll(rows, os)) && SameFacts(UpsertAll(rows, os), rows)
  {
    UpsertAllWellFormed(rows, os);
    if os != [] {
      var init, last := os[..|os| - 1], os[|os| - 1];
      assert Deterministic(init);
      PredictionsLeaveFacts(rows, init);
      UpsertElements(UpsertAll(rows, init), last);
      assert last in os;
      forall o: Observation | o.dataset != PREDICTION_DATASET && o in UpsertAll(rows, init) ensures o.id != last.id {
        UpsertAllWellFormed(rows, init);
        assert o.id == o.DeterministicId() && last.id == last.DeterministicId();
      }
    }
  }

  lemma LoggedIsDeterministic(rs: seq<Record>, t: int, l: Learner)
    ensures Deterministic(LoggedAll(rs, t, l))
    ensures forall o :: o in LoggedAll(rs, t, l) ==> o.dataset == PREDICTION_DATASET && o.knowledgeTime == t
  {
  }

  lemma {:induction false} PrefixNests(history: seq<Observation>, s: int, t: int)
    requires s <= t
    ensures Prefix(history, s) <= Prefix(history, t)
  {
    RevealedPrefix(history, s);
    RevealedPrefix(history, t);
    RevealedInOrder(history);
    OrderedPrefix(Revealed(history), s, t);
  }

  lemma {:induction false} OrderedPrefix(rows: seq<Observation>, s: int, t: int)
    requires InKnowledgeOrder(rows) && s <= t
    ensures Filter(rows, KnownBy(s)) <= Filter(rows, KnownBy(t))
  {
    if rows != [] {
      var init, last := rows[..|rows| - 1], rows[|rows| - 1];
      OrderedPrefix(init, s, t);
      if last.knowledgeTime <= s {
        AllKnown(rows, s);
        AllKnown(rows, t);
      } else {
        FilterOfLast(rows, KnownBy(s));
        FilterOfLast(rows, KnownBy(t));
      }
    }
  }

  lemma NewsCompletesThePast(r: Replayed, k: nat)
    requires r.Reveals() && Backtest.Ascending(r.rebalances) && k < |r.rebalances|
    ensures r.Past(k) + r.news(k) == r.known(r.rebalances[k])
  {
    NewsIs(r, k);
    KnownIs(r, r.rebalances[k]);
    if k > 0 {
      assert r.rebalances[k - 1] <= r.rebalances[k];
      KnownIs(r, r.rebalances[k - 1]);
      PrefixNests(r.history, r.rebalances[k - 1], r.rebalances[k]);
    }
  }

  lemma PrefixIsDeterministic(history: seq<Observation>, t: int)
    requires Deterministic(history)
    ensures Deterministic(Prefix(history, t))
    ensures forall o :: o in Prefix(history, t) <==> o in history && o.knowledgeTime <= t
  {
    FilterElements(history, KnownBy(t));
    RevealedInOrder(Filter(history, KnownBy(t)));
  }

  lemma ValidUnfolds(r: Replayed)
    requires r.Valid()
    ensures r.Unfolds()
  {
    forall k: nat | k < |r.rebalances| ensures r.Completes(k) {
      NewsCompletesThePast(r, k);
      KnownIs(r, r.rebalances[k]);
      PrefixIsDeterministic(r.history, r.rebalances[k]);
    }
  }

  lemma PartsAreDeterministic(a: seq<Observation>, b: seq<Observation>)
    requires Deterministic(a + b)
    ensures Deterministic(a) && Deterministic(b)
  {
    assert forall o :: o in a ==> o in a + b;
    assert forall o :: o in b ==> o in a + b;
  }

  /** Ingesting the news completes a store that holds the past. */
  lemma NewsKeepsFacts(past: seq<Observation>, news: seq<Observation>, store: Rows)
    requires Deterministic(past + news) && WellFormed(store) && SameFacts(store, UpsertAll([], past))
    ensures WellFormed(UpsertAll(store, news))
    ensures SameFacts(UpsertAll(store, news), UpsertAll([], past + news))
  {
    PartsAreDeterministic(past, news);
    UpsertAllWellFormed([], past);
    SameFactsGrow(store, UpsertAll([], past), news);
    UpsertAllAppend([], past, news);
  }

  /** Logging what a store predicts leaves its facts alone. */
  lemma LoggingKeepsFacts(r: Replayed, rows: Rows, t: int, facts: Rows)
    requires WellFormed(rows) && SameFacts(rows, facts)
    ensures WellFormed(r.WithPredictions(rows, t)) && SameFacts(r.WithPredictions(rows, t), facts)
  {
    LoggedIsDeterministic(r.RankedOf(rows, t), t, r.learner);
    PredictionsLeaveFacts(rows, LoggedAll(r.RankedOf(rows, t), t, r.learner));
  }

  /** The store holds, predictions aside, what is known by t. */
  ghost predicate HoldsThePast(r: Replayed, rows: Rows, t: int) {
    WellFormed(rows) && SameFacts(rows, UpsertAll([], r.known(t)))
  }

  lemma FirstInformedHoldsThePast(r: Replayed)
    requires 0 < |r.rebalances| && r.Completes(0)
    ensures HoldsThePast(r, r.Informed(0), r.rebalances[0])
  {
    NewsKeepsFacts([], r.news(0), []);
  }

  /** The store after the next news, if the one after the news of rebalance k held what was known by then. */
  lemma NextInformedHoldsThePast(r: Replayed, k: nat)
    requires k + 1 < |r.rebalances| && r.Completes(k + 1) && HoldsThePast(r, r.Informed(k), r.rebalances[k])
    ensures HoldsThePast(r, r.Informed(k + 1), r.rebalances[k + 1])
  {
    NextStore(r, k);
    LoggingKeepsFacts(r, r.Informed(k), r.rebalances[k], UpsertAll([], r.Past(k + 1)));
    NewsKeepsFacts(r.Past(k + 1), r.news(k + 1), r.Store(k + 1));
  }

  /** Once rebalance k's news are in, the store holds, predictions aside, what is known by then. */
  lemma InformedHoldsThePast(r: Replayed, k: nat)
    requires r.Unfolds() && k < |r.rebalances|
    ensures HoldsThePast(r, r.Informed(k), r.rebalances[k])
  {
    assert r.Completes(0);
    FirstInformedHoldsThePast(r);
    for j := 0 to k
      invariant HoldsThePast(r, r.Informed(j), r.rebalances[j])
    {
      assert r.Completes(j + 1);
      NextInformedHoldsThePast(r, j);
    }
  }

  /** At every rebalance the store holds, predictions aside, exactly the rows of the history known by then. */
  lemma RevealIsPointInTime(r: Replayed, k: nat, o: Observation)
    requires r.Valid() && k < |r.rebalances| && o.dataset != PREDICTION_DATASET
    ensures o in r.Informed(k) <==> o in UpsertAll([], r.history) && o.knowledgeTime <= r.rebalances[k]
  {
    ValidUnfolds(r);
    InformedHoldsThePast(r, k);
    KnownIs(r, r.rebalances[k]);
    if o.id == o.DeterministicId() {
      RevealedRowsAreTheKnownOnes(r.history, r.rebalances[k], o);
    } else {
      UpsertAllWellFormed([], r.history);
    }
  }

  /** Store a holds the matching rows of b that are known by t, and no others. */
  ghost predicate HoldsKnown(a: Rows, b: Rows, t: int, q: Query) {
    forall o: Observation :: q.Matches(o) ==> (o in a <==> o in b && o.knowledgeTime <= t)
  }

  lemma SameLatest(a: Rows, b: Rows, t: int, future: int, q: Query, o: Observation)
    requires HoldsKnown(a, b, t, q) && t <= future
    ensures LatestKnown(a, future, q, o) <==> LatestKnown(b, t, q, o)
  {
  }

  lemma InformedHoldsKnown(r: Replayed, k: nat)
    requires r.Valid() && k < |r.rebalances|
    ensures HoldsKnown(r.Informed(k), UpsertAll([], r.history), r.rebalances[k], OfDataset(PRICE_DATASET))
  {
    var q := OfDataset(PRICE_DATASET);
    forall o: Observation | q.Matches(o)
      ensures o in r.Informed(k) <==> o in UpsertAll([], r.history) && o.knowledgeTime <= r.rebalances[k]
    {
      RevealIsPointInTime(r, k, o);
    }
  }

  /** A query without time limit on the one is the query as of t on the other. */
  lemma SameReads(a: Rows, b: Rows, t: int, future: int, q: Query)
    requires WellFormed(a) && WellFormed(b) && HoldsKnown(a, b, t, q) && t <= future
    ensures forall o :: o in AsOf(a, future, q) <==> o in AsOf(b, t, q)
    ensures DistinctKeys(AsOf(a, future, q)) && DistinctKeys(AsOf(b, t, q))
  {
    AsOfIsLatestKnown(a, future, q);
    AsOfIsLatestKnown(b, t, q);
    forall o ensures LatestKnown(a, future, q, o) <==> LatestKnown(b, t, q, o) {
      SameLatest(a, b, t, future, q, o);
    }
  }

  /** What grading reads with no time limit is what was known at the rebalance: the same rows. */
  lemma GradingReadsThePast(r: Replayed, k: nat)
    requires r.Valid() && k < |r.rebalances|
    ensures var all := UpsertAll([], r.history);
      forall o ::
        (o in AsOf(r.Informed(k), r.future, OfDataset(PRICE_DATASET))
         <==> o in AsOf(all, r.rebalances[k], OfDataset(PRICE_DATASET)))
  {
    ValidUnfolds(r);
    InformedHoldsThePast(r, k);
    UpsertAllWellFormed([], r.history);
    InformedHoldsKnown(r, k);
    SameReads(r.Informed(k), UpsertAll([], r.history), r.rebalances[k], r.future, OfDataset(PRICE_DATASET));
  }

  /** And, unless sort keys tie, the same list, so the same panel. */
  lemma GradingPanelIsThePast(r: Replayed, k: nat)
    requires r.Valid() && k < |r.rebalances|
    requires NoTies(AsOf(UpsertAll([], r.history), r.rebalances[k], OfDataset(PRICE_DATASET)))
    ensures r.Prices(r.Informed(k))
      == PriceFrame(AsOf(UpsertAll([], r.history), r.rebalances[k], OfDataset(PRICE_DATASET)))
  {
    var q, t, all := OfDataset(PRICE_DATASET), r.rebalances[k], UpsertAll([], r.history);
    ValidUnfolds(r);
    InformedHoldsThePast(r, k);
    UpsertAllWellFormed([], r.history);
    InformedHoldsKnown(r, k);
    SameReads(r.Informed(k), all, t, r.future, q);
    UntiedListsAreEqual(r.Informed(k), all, r.future, t, q);
  }

  lemma UntiedListsAreEqual(a: Rows, b: Rows, future: int, t: int, q: Query)
    requires DistinctKeys(AsOf(a, future, q)) && DistinctKeys(AsOf(b, t, q))
    requires forall o :: o in AsOf(a, future, q) <==> o in AsOf(b, t, q)
    requires NoTies(AsOf(b, t, q))
    ensures AsOf(a, future, q) == AsOf(b, t, q)
  {
    var key := (o: Observation) => o.SortKey();
    DistinctSameElements(AsOf(a, future, q), AsOf(b, t, q));
    SortSorts(Collapse(Filter(a, SeenBy(future, q))), key);
    SortSorts(Collapse(Filter(b, SeenBy(t, q))), key);
    SortedIsUnique(AsOf(b, t, q), AsOf(a, future, q), key);
  }

  /** The bars of a panel are times of price rows of the history known by t. */
  ghost predicate BarsKnownBy(panel: Backtest.Panel, history: seq<Observation>, t: int) {
    forall j :: 0 <= j < |panel.rows| ==> BarKnownBy(panel.rows[j].time, history, t)
  }

  ghost predicate BarKnownBy(time: int, history: seq<Observation>, t: int) {
    exists o :: o in history && o.dataset == PRICE_DATASET && o.eventTime == time && o.knowledgeTime <= t
  }

  /**
   * A prediction is graded at a rebalance only if at least a full horizon of bars strictly after it had become
   * known by then, and every bar it is graded against had.
   */
  lemma GradedOnlyOnceMatured(r: Replayed, k: nat, g: Grade)
    requires r.Valid() && k < |r.rebalances| && g in r.GradesOf(r.Informed(k), r.rebalances[k])
    ensures Matured(r.Prices(r.Informed(k)), g.prediction.eventTime, r.learner.horizon)
    ensures BarsKnownBy(r.Prices(r.Informed(k)), r.history, r.rebalances[k])
    ensures g.prediction.knowledgeTime <= r.rebalances[k] && g.prediction.ref == Some(r.learner.model)
  {
    var rows, t := r.Informed(k), r.rebalances[k];
    var known := AsOf(rows, t, OfDataset(PREDICTION_DATASET));
    InsightIs(r, rows, t);
    GradedAreMatured(Filter(known, OfModel(r.learner.model)), r.Prices(rows), r.learner.change, r.learner.horizon, g);
    FilterElements(known, OfModel(r.learner.model));
    ValidUnfolds(r);
    InformedHoldsThePast(r, k);
    AsOfIsLatestKnown(rows, t, OfDataset(PREDICTION_DATASET));
    PriceBarsAreKnown(r, k);
  }

  lemma PriceBarsAreKnown(r: Replayed, k: nat)
    requires r.Valid() && k < |r.rebalances|
    ensures BarsKnownBy(r.Prices(r.Informed(k)), r.history, r.rebalances[k])
  {
    var panel, t := r.Prices(r.Informed(k)), r.rebalances[k];
    var prices := AsOf(r.Informed(k), r.future, OfDataset(PRICE_DATASET));
    PriceTimesAre(prices);
    ValidUnfolds(r);
    InformedHoldsThePast(r, k);
    AsOfIsLatestKnown(r.Informed(k), r.future, OfDataset(PRICE_DATASET));
    forall j | 0 <= j < |panel.rows| ensures BarKnownBy(panel.rows[j].time, r.history, t) {
      assert panel.rows[j].time in PriceTimes(prices);
      var o :| o in prices && o.value.Price? && o.eventTime == panel.rows[j].time;
      RevealIsPointInTime(r, k, o);
      IngestedIsGiven(r.history, o);
    }
  }

  lemma IngestedIsGiven(os: seq<Observation>, o: Observation)
    requires o in UpsertAll([], os)
    ensures o in os
  {
    LastWriteIsKept(os, o);
    FilterElements(os, SameId(o.id));
    var written := Filter(os, SameId(o.id));
    assert written[|written| - 1] in written;
  }

  // ----------------------------------------------------------- non-interference

  lemma {:induction false} FilterNests(history: seq<Observation>, t: int, c: int)
    requires t <= c
    ensures Filter(Filter(history, KnownBy(c)), KnownBy(t)) == Filter(history, KnownBy(t))
  {
    if history != [] {
      var init, last := history[..|history| - 1], history[|history| - 1];
      FilterNests(init, t, c);
      if last.knowledgeTime <= c {
        assert Filter(history, KnownBy(c)) == Filter(init, KnownBy(c)) + [last];
        FilterOfAppend(Filter(init, KnownBy(c)), last, KnownBy(t));
      } else {
        assert Filter(history, KnownBy(c)) == Filter(init, KnownBy(c));
        assert Filter(history, KnownBy(t)) == Filter(init, KnownBy(t));
      }
    }
  }

  /** Two replays of one learner over one schedule. */
  ghost predicate SameSetup(r: Replayed, s: Replayed) {
    r.learner == s.learner && r.rebalances == s.rebalances && r.future == s.future
  }

  /** Two replays of one learner whose histories agree on everything known by c. */
  ghost predicate AgreeUpTo(r: Replayed, s: Replayed, c: int) {
    && SameSetup(r, s)
    && Filter(r.history, KnownBy(c)) == Filter(s.history, KnownBy(c))
  }

  lemma SamePrefix(r: Replayed, s: Replayed, t: int, c: int)
    requires AgreeUpTo(r, s, c) && t <= c
    ensures Prefix(r.history, t) == Prefix(s.history, t)
  {
    FilterNests(r.history, t, c);
    FilterNests(s.history, t, c);
  }

  /** What a learner makes of a store does not depend on the rest of the history. */
  ghost predicate SameInsight(r: Replayed, s: Replayed) {
    forall rows, t :: r.insight(rows, t) == s.insight(rows, t)
  }

  lemma OneLearnerOneInsight(r: Replayed, s: Replayed)
    requires SameSetup(r, s) && r.Learns() && s.Learns()
    ensures SameInsight(r, s)
  {
    forall rows, t ensures r.insight(rows, t) == s.insight(rows, t) {
      InsightIs(r, rows, t);
      InsightIs(s, rows, t);
    }
  }

  /** What becomes known after c changes nothing in the news up to c. */
  lemma AgreementIsKnown(r: Replayed, s: Replayed, c: int, k: nat)
    requires r.Reveals() && s.Reveals() && AgreeUpTo(r, s, c) && Backtest.Ascending(r.rebalances)
    requires k < |r.rebalances| && r.rebalances[k] <= c
    ensures SameNewsUpTo(r, s, k)
  {
    forall j: nat | j <= k ensures r.news(j) == s.news(j) {
      assert r.rebalances[j] <= r.rebalances[k];
      NewsIs(r, j);
      NewsIs(s, j);
      SamePrefix(r, s, r.rebalances[j], c);
      if j > 0 {
        assert r.rebalances[j - 1] <= r.rebalances[j];
        SamePrefix(r, s, r.rebalances[j - 1], c);
      }
    }
  }

  lemma NextStore(r: Replayed, k: nat)
    requires k < |r.rebalances|
    ensures r.Store(k + 1) == r.WithPredictions(r.Informed(k), r.rebalances[k])
  {
  }

  lemma SameNextStore(r: Replayed, s: Replayed, k: nat)
    requires SameSetup(r, s) && SameInsight(r, s)
    requires k < |r.rebalances| && r.Informed(k) == s.Informed(k)
    ensures r.Store(k + 1) == s.Store(k + 1)
  {
    NextStore(r, k);
    NextStore(s, k);
  }

  lemma SameInformed(r: Replayed, s: Replayed, k: nat)
    requires SameSetup(r, s) && k < |r.rebalances|
    requires r.Store(k) == s.Store(k) && r.news(k) == s.news(k)
    ensures r.Informed(k) == s.Informed(k)
  {
  }

  lemma SameInformedNext(r: Replayed, s: Replayed, k: nat)
    requires SameSetup(r, s) && SameInsight(r, s) && k + 1 < |r.rebalances|
    requires r.Informed(k) == s.Informed(k) && r.news(k + 1) == s.news(k + 1)
    ensures r.Informed(k + 1) == s.Informed(k + 1)
  {
    SameNextStore(r, s, k);
    SameInformed(r, s, k + 1);
  }

  /** Up to rebalance k the news are the same. */
  ghost predicate SameNewsUpTo(r: Replayed, s: Replayed, k: nat) {
    forall j: nat :: j <= k ==> r.news(j) == s.news(j)
  }

  /** The same news make the same store. */
  lemma {:induction false} SameStores(r: Replayed, s: Replayed, k: nat)
    requires SameSetup(r, s) && SameInsight(r, s) && SameNewsUpTo(r, s, k) && k < |r.rebalances|
    ensures r.Informed(k) == s.Informed(k)
  {
    if k == 0 {
      SameInformed(r, s, 0);
    } else {
      SameStores(r, s, k - 1);
      SameInformedNext(r, s, k - 1);
    }
  }

  /** What becomes known after c changes nothing up to c: not the store, not a grade, not a ranking. */
  lemma LaterNewsDoesNotInterfere(r: Replayed, s: Replayed, c: int, k: nat)
    requires r.Valid() && s.Valid() && AgreeUpTo(r, s, c) && k < |r.rebalances| && r.rebalances[k] <= c
    ensures r.Informed(k) == s.Informed(k)
    ensures r.GradesOf(r.Informed(k), r.rebalances[k]) == s.GradesOf(s.Informed(k), s.rebalances[k])
    ensures r.Ranked(k) == s.Ranked(k)
  {
    OneLearnerOneInsight(r, s);
    AgreementIsKnown(r, s, c, k);
    SameStores(r, s, k);
  }
}
