/** What the replay grades: its own predictions, each from the rebalance at which its horizon has passed. */
module ReplayGrades {
  import opened Prelude
  import opened Ordering
  import opened Bitemporal
  import opened BitemporalLaws
  import opened Grading
  import opened Replay
  import opened ReplayRun
  import Backtest

  ghost predicate OncePerName(ranked: seq<Record>) {
    forall i, j :: 0 <= i < j < |ranked| ==> ranked[i].symbol != ranked[j].symbol
  }

  /** What the learner ranked at each rebalance of a replay, and the store each rebalance started with. */
  datatype Rankings = Rankings(
    ranked: nat -> seq<Record>, store: nat -> Rows, rebalances: seq<int>, learner: Learner) {

    /** These are the rankings of r. */
    ghost predicate Of(r: Replayed) {
      && rebalances == r.rebalances && learner == r.learner
      && (forall k: nat {:trigger r.Ranked(k)} :: k < |r.rebalances| ==> ranked(k) == r.Ranked(k))
      && (forall k: nat {:trigger r.Store(k)} :: k <= |r.rebalances| ==> store(k) == r.Store(k))
    }

    ghost predicate ListNamesOnce() {
      forall k: nat :: k < |rebalances| ==> OncePerName(ranked(k))
    }

    /** The record was ranked at rebalance i, and this is its row. */
    ghost predicate LoggedAs(i: nat, rec: Record, o: Observation) {
      i < |rebalances| && rec in ranked(i) && o == Logged(rec, rebalances[i], learner)
    }

    /** Rebalance j is at the time of the prediction and ranks its name again. */
    ghost predicate RanksAgain(j: nat, o: Observation) {
      && j < |rebalances| && rebalances[j] == o.eventTime
      && exists rec :: rec in ranked(j) && rec.symbol == o.entityId
    }

    ghost predicate NotAgain(i: nat, k: nat, o: Observation) {
      forall j: nat :: i < j < k ==> !RanksAgain(j, o)
    }

    /** A rebalance before the k-th made this prediction, and none between them, at the same time, made it anew. */
    ghost predicate Predicted(k: nat, o: Observation) {
      exists i: nat, rec :: LoggedAs(i, rec, o) && i < k && NotAgain(i, k, o)
    }
  }

  function RankingsOf(r: Replayed): (m: Rankings)
    ensures m.Of(r)
  {
    Rankings(
      (k: nat) => if k < |r.rebalances| then r.Ranked(k) else [],
      (k: nat) => if k <= |r.rebalances| then r.Store(k) else [],
      r.rebalances, r.learner)
  }

  ghost predicate BringsNoPredictions(history: seq<Observation>) {
    forall o :: o in history ==> o.dataset != PREDICTION_DATASET
  }

  // ------------------------------------------------------------ what is written

  lemma {:induction false} UpsertAllDistinct(rows: Rows, os: seq<Observation>, o: Observation)
    requires DistinctIds(rows) && DistinctIds(os)
    ensures DistinctIds(UpsertAll(rows, os))
    ensures o in UpsertAll(rows, os) <==> o in os || (o in rows && forall p :: p in os ==> p.id != o.id)
  {
    if os != [] {
      var init, last := os[..|os| - 1], os[|os| - 1];
      assert os == init + [last];
      UpsertAllDistinct(rows, init, o);
      UpsertElements(UpsertAll(rows, init), last);
      forall p | p in init ensures p.id != last.id {
        var i :| 0 <= i < |init| && init[i] == p;
        assert os[i].id != os[|os| - 1].id;
      }
    }
  }

  /** Rows of other identifiers leave a row alone. */
  lemma {:induction false} OthersLeaveAlone(rows: Rows, os: seq<Observation>, o: Observation)
    requires WellFormed(rows) && Deterministic(os) && forall p :: p in os ==> p.id != o.id
    ensures WellFormed(UpsertAll(rows, os)) && (o in UpsertAll(rows, os) <==> o in rows)
  {
    UpsertAllWellFormed(rows, os);
    if os != [] {
      var init, last := os[..|os| - 1], os[|os| - 1];
      assert os == init + [last];
      OthersLeaveAlone(rows, init, o);
      UpsertElements(UpsertAll(rows, init), last);
    }
  }

  lemma SameRowIff(a: Record, s: int, b: Record, t: int, l: Learner)
    ensures Logged(a, s, l).id == Logged(b, t, l).id <==> a.symbol == b.symbol && s == t
  {
  }

  lemma LoggedOnce(rs: seq<Record>, t: int, l: Learner)
    requires OncePerName(rs)
    ensures DistinctIds(LoggedAll(rs, t, l))
  {
    var os := LoggedAll(rs, t, l);
    forall i, j | 0 <= i < j < |os| ensures os[i].id != os[j].id {
      SameRowIff(rs[i], t, rs[j], t, l);
    }
  }

  lemma LoggedAllAre(rs: seq<Record>, t: int, l: Learner, o: Observation)
    ensures o in LoggedAll(rs, t, l) <==> exists rec :: rec in rs && o == Logged(rec, t, l)
  {
    if rec :| rec in rs && o == Logged(rec, t, l) {
      var i :| 0 <= i < |rs| && rs[i] == rec;
      assert LoggedAll(rs, t, l)[i] == o;
    }
  }

  /** Some row of a ranking replaces a logged prediction exactly if it is for the same name at the same time. */
  lemma ReplacedIff(rs: seq<Record>, t: int, l: Learner, rec: Record, s: int)
    ensures (exists p :: p in LoggedAll(rs, t, l) && p.id == Logged(rec, s, l).id)
      <==> t == s && exists other :: other in rs && other.symbol == rec.symbol
  {
    if p :| p in LoggedAll(rs, t, l) && p.id == Logged(rec, s, l).id {
      LoggedAllAre(rs, t, l, p);
      var other :| other in rs && p == Logged(other, t, l);
      SameRowIff(other, t, rec, s, l);
    }
    if t == s {
      if other :| other in rs && other.symbol == rec.symbol {
        SameRowIff(other, t, rec, s, l);
        LoggedAllAre(rs, t, l, Logged(other, t, l));
        assert Logged(other, t, l) in LoggedAll(rs, t, l);
      }
    }
  }

  /** One more rebalance: its own predictions, and of those before it the ones it does not make anew. */
  lemma PredictedNext(m: Rankings, k: nat, o: Observation)
    requires k < |m.rebalances|
    ensures m.Predicted(k + 1, o) <==>
      (exists rec :: m.LoggedAs(k, rec, o)) || (m.Predicted(k, o) && !m.RanksAgain(k, o))
  {
    if m.Predicted(k + 1, o) {
      var i: nat, rec :| m.LoggedAs(i, rec, o) && i < k + 1 && m.NotAgain(i, k + 1, o);
      if i < k {
        assert m.NotAgain(i, k, o) && !m.RanksAgain(k, o);
      }
    }
    if rec :| m.LoggedAs(k, rec, o) {
      assert m.NotAgain(k, k + 1, o);
    }
    if m.Predicted(k, o) && !m.RanksAgain(k, o) {
      var i: nat, rec :| m.LoggedAs(i, rec, o) && i < k && m.NotAgain(i, k, o);
      assert m.NotAgain(i, k + 1, o);
    }
  }

  /** The news of a rebalance are rows of the history. */
  lemma NewsAreGiven(r: Replayed, k: nat)
    requires r.Valid() && k < |r.rebalances|
    ensures Deterministic(r.news(k)) && forall o :: o in r.news(k) ==> o in r.history
  {
    ValidUnfolds(r);
    assert r.Completes(k);
    PartsAreDeterministic(r.Past(k), r.news(k));
    KnownIs(r, r.rebalances[k]);
    PrefixIsDeterministic(r.history, r.rebalances[k]);
    forall o | o in r.news(k) ensures o in r.history {
      assert o in r.Past(k) + r.news(k);
    }
  }

  /** The news leave the predictions alone. */
  lemma NewsLeavePredictions(r: Replayed, k: nat, store: Rows, o: Observation)
    requires r.Valid() && BringsNoPredictions(r.history) && k < |r.rebalances|
    requires WellFormed(store) && o.dataset == PREDICTION_DATASET
    ensures WellFormed(UpsertAll(store, r.news(k)))
    ensures o in UpsertAll(store, r.news(k)) <==> o in store
  {
    NewsAreGiven(r, k);
    UpsertAllWellFormed(store, r.news(k));
    if o.id == o.DeterministicId() {
      forall p | p in r.news(k) ensures p.id != o.id {
        assert p.id == p.DeterministicId() && p.dataset != o.dataset;
      }
      OthersLeaveAlone(store, r.news(k), o);
    }
  }

  /** The store holds the prediction if it was made before rebalance k, and only then. */
  ghost predicate Holds(m: Rankings, k: nat, store: Rows, o: Observation) {
    WellFormed(store) && (o in store <==> m.Predicted(k, o))
  }

  /** What logging the ranking of rebalance k makes of a store that holds the predictions before it. */
  lemma LoggingPredicts(m: Rankings, k: nat, store: Rows, o: Observation)
    requires k < |m.rebalances| && OncePerName(m.ranked(k)) && Holds(m, k, store, o)
    ensures Holds(m, k + 1, UpsertAll(store, LoggedAll(m.ranked(k), m.rebalances[k], m.learner)), o)
  {
    var logged := LoggedAll(m.ranked(k), m.rebalances[k], m.learner);
    LoggedOnce(m.ranked(k), m.rebalances[k], m.learner);
    LoggedIsDeterministic(m.ranked(k), m.rebalances[k], m.learner);
    UpsertAllWellFormed(store, logged);
    UpsertAllDistinct(store, logged, o);
    LoggedHere(m, k, logged, o);
    PredictedNext(m, k, o);
    if m.Predicted(k, o) {
      ReplacedHere(m, k, logged, o);
    }
  }

  lemma LoggedHere(m: Rankings, k: nat, logged: Rows, o: Observation)
    requires k < |m.rebalances| && logged == LoggedAll(m.ranked(k), m.rebalances[k], m.learner)
    ensures o in logged <==> exists rec :: m.LoggedAs(k, rec, o)
  {
    LoggedAllAre(m.ranked(k), m.rebalances[k], m.learner, o);
    if o in logged {
      var rec :| rec in m.ranked(k) && o == Logged(rec, m.rebalances[k], m.learner);
      assert m.LoggedAs(k, rec, o);
    }
  }

  lemma ReplacedHere(m: Rankings, k: nat, logged: Rows, o: Observation)
    requires k < |m.rebalances| && logged == LoggedAll(m.ranked(k), m.rebalances[k], m.learner) && m.Predicted(k, o)
    ensures (exists p :: p in logged && p.id == o.id) <==> m.RanksAgain(k, o)
  {
    var i: nat, rec :| m.LoggedAs(i, rec, o) && i < k && m.NotAgain(i, k, o);
    ReplacedIff(m.ranked(k), m.rebalances[k], m.learner, rec, m.rebalances[i]);
  }

  lemma FirstStoreHolds(r: Replayed, m: Rankings, o: Observation)
    requires m.Of(r)
    ensures Holds(m, 0, m.store(0), o)
  {
    assert r.Store(0) == [] && m.store(0) == [];
  }

  /** One rebalance, from the store it starts with over the news to the predictions it logs. */
  lemma RebalancePredicts(r: Replayed, m: Rankings, k: nat, store: Rows, o: Observation)
    requires r.Valid() && BringsNoPredictions(r.history) && m.rebalances == r.rebalances && k < |r.rebalances|
    requires OncePerName(m.ranked(k)) && o.dataset == PREDICTION_DATASET && Holds(m, k, store, o)
    ensures Holds(m, k + 1, UpsertAll(UpsertAll(store, r.news(k)),
                                      LoggedAll(m.ranked(k), m.rebalances[k], m.learner)), o)
  {
    NewsLeavePredictions(r, k, store, o);
    LoggingPredicts(m, k, UpsertAll(store, r.news(k)), o);
  }

  lemma StoreGrows(r: Replayed, m: Rankings, k: nat)
    requires m.Of(r) && k < |r.rebalances|
    ensures m.store(k + 1)
      == UpsertAll(UpsertAll(m.store(k), r.news(k)), LoggedAll(m.ranked(k), m.rebalances[k], m.learner))
  {
    assert m.ranked(k) == r.Ranked(k) && m.store(k) == r.Store(k) && m.store(k + 1) == r.Store(k + 1);
  }

  /** When rebalance k starts, the predictions in the store are those made before it. */
  lemma StoreHoldsPredictions(r: Replayed, m: Rankings, k: nat, o: Observation)
    requires r.Valid() && BringsNoPredictions(r.history) && m.Of(r) && m.ListNamesOnce()
    requires k <= |r.rebalances| && o.dataset == PREDICTION_DATASET
    ensures Holds(m, k, m.store(k), o)
  {
    FirstStoreHolds(r, m, o);
    for j := 0 to k
      invariant Holds(m, j, m.store(j), o)
    {
      NextStoreHolds(r, m, j, o);
    }
  }

  lemma NextStoreHolds(r: Replayed, m: Rankings, k: nat, o: Observation)
    requires r.Valid() && BringsNoPredictions(r.history) && m.Of(r) && m.ListNamesOnce() && k < |r.rebalances|
    requires o.dataset == PREDICTION_DATASET && Holds(m, k, m.store(k), o)
    ensures Holds(m, k + 1, m.store(k + 1), o)
  {
    StoreGrows(r, m, k);
    RebalancePredicts(r, m, k, m.store(k), o);
  }

  lemma InformedHoldsPredictions(r: Replayed, m: Rankings, k: nat, o: Observation)
    requires r.Valid() && BringsNoPredictions(r.history) && m.Of(r) && m.ListNamesOnce()
    requires k < |r.rebalances| && o.dataset == PREDICTION_DATASET
    ensures Holds(m, k, r.Informed(k), o)
  {
    StoreHoldsPredictions(r, m, k, o);
    NewsLeavePredictions(r, k, m.store(k), o);
    assert m.store(k) == r.Store(k);
  }

  // ------------------------------------------------------------- what is graded

  lemma PredictionsAreDated(r: Replayed, m: Rankings, k: nat, o: Observation)
    requires r.Valid() && m.Of(r) && k < |r.rebalances| && m.Predicted(k, o)
    ensures o.dataset == PREDICTION_DATASET && o.ref == Some(r.learner.model)
    ensures o.revision == 0 && o.knowledgeTime == o.eventTime <= r.rebalances[k]
  {
    var i: nat, rec :| m.LoggedAs(i, rec, o) && i < k && m.NotAgain(i, k, o);
    assert r.rebalances[i] <= r.rebalances[k];
  }

  lemma PredictionIsLatest(r: Replayed, m: Rankings, k: nat, rows: Rows, o: Observation)
    requires r.Valid() && BringsNoPredictions(r.history) && m.Of(r) && m.ListNamesOnce() && k < |r.rebalances|
    requires rows == r.Informed(k) && m.Predicted(k, o)
    ensures LatestKnown(rows, r.rebalances[k], OfDataset(PREDICTION_DATASET), o)
  {
    var t, q := r.rebalances[k], OfDataset(PREDICTION_DATASET);
    PredictionsAreDated(r, m, k, o);
    InformedHoldsPredictions(r, m, k, o);
    forall p | p in rows && Seen(p, t, q) && p.LogicalKey() == o.LogicalKey() ensures !p.NewerThan(o) {
      InformedHoldsPredictions(r, m, k, p);
      PredictionsAreDated(r, m, k, p);
    }
  }

  /** The predictions grading reads at rebalance k are those made before it. */
  lemma GradingReadsPredictions(r: Replayed, m: Rankings, k: nat, o: Observation)
    requires r.Valid() && BringsNoPredictions(r.history) && m.Of(r) && m.ListNamesOnce() && k < |r.rebalances|
    ensures o in AsOf(r.Informed(k), r.rebalances[k], OfDataset(PREDICTION_DATASET)) <==> m.Predicted(k, o)
  {
    ValidUnfolds(r);
    InformedHoldsThePast(r, k);
    AsOfIsLatestKnown(r.Informed(k), r.rebalances[k], OfDataset(PREDICTION_DATASET));
    if o.dataset == PREDICTION_DATASET {
      InformedHoldsPredictions(r, m, k, o);
    }
    if m.Predicted(k, o) {
      PredictionsAreDated(r, m, k, o);
      PredictionIsLatest(r, m, k, r.Informed(k), o);
    }
  }

  /**
   * At every rebalance the replay grades exactly the predictions it made at earlier ones whose outcome is there: each
   * with the return of its name over the horizon after it.
   */
  lemma GradesItsOwnPredictions(r: Replayed, m: Rankings, k: nat, g: Grade)
    requires r.Valid() && BringsNoPredictions(r.history) && m.Of(r) && m.ListNamesOnce() && k < |r.rebalances|
    ensures g in r.GradesOf(r.Informed(k), r.rebalances[k]) <==>
      && m.Predicted(k, g.prediction)
      && Some(g.forward) == ForwardReturn(r.Prices(r.Informed(k)), r.learner.change, g.prediction.eventTime,
                                          r.learner.horizon, g.prediction.entityId)
  {
    var rows, t := r.Informed(k), r.rebalances[k];
    var known := AsOf(rows, t, OfDataset(PREDICTION_DATASET));
    InsightIs(r, rows, t);
    GradedAreMatured(Filter(known, OfModel(r.learner.model)), r.Prices(rows), r.learner.change, r.learner.horizon, g);
    FilterElements(known, OfModel(r.learner.model));
    GradingReadsPredictions(r, m, k, g.prediction);
    if m.Predicted(k, g.prediction) {
      PredictionsAreDated(r, m, k, g.prediction);
    }
  }

  /** The prediction is among the outcomes graded. */
  ghost predicate IsGraded(grades: seq<Grade>, o: Observation) {
    exists g :: g in grades && g.prediction == o
  }

  /** What a rebalance ranks is graded at a later one exactly if the name is priced and its horizon has passed. */
  lemma RankedIsGradedIff(r: Replayed, m: Rankings, i: nat, k: nat, rec: Record)
    requires r.Valid() && BringsNoPredictions(r.history) && m.Of(r) && m.ListNamesOnce()
    requires i < k < |r.rebalances| && rec in m.ranked(i)
    requires m.NotAgain(i, k, Logged(rec, r.rebalances[i], r.learner))
    ensures IsGraded(r.GradesOf(r.Informed(k), r.rebalances[k]), Logged(rec, r.rebalances[i], r.learner))
      <==> rec.symbol in r.Prices(r.Informed(k)).columns
           && Matured(r.Prices(r.Informed(k)), r.rebalances[i], r.learner.horizon)
  {
    var o, panel := Logged(rec, r.rebalances[i], r.learner), r.Prices(r.Informed(k));
    var grades := r.GradesOf(r.Informed(k), r.rebalances[k]);
    assert m.LoggedAs(i, rec, o) && m.Predicted(k, o);
    OutcomeIffMatured(panel, r.learner.change, o.eventTime, r.learner.horizon, o.entityId);
    var outcome := ForwardReturn(panel, r.learner.change, o.eventTime, r.learner.horizon, o.entityId);
    if outcome.Some? {
      GradesItsOwnPredictions(r, m, k, Grade(o, outcome.value));
    }
    if g :| g in grades && g.prediction == o {
      GradesItsOwnPredictions(r, m, k, g);
    }
  }
}
