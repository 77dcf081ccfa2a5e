/** The replay loop, and how far the learning book can have seen. */
module ReplayLoop {
  import opened Prelude
  import opened Ordering
  import opened Bitemporal
  import opened BitemporalLaws
  import opened Grading
  import opened Replay
  import opened ReplayRun
  import opened ReplayAccount
  import Backtest
  import BacktestLaws

  datatype ReplayError = TooLittleInput | NoReturns

  /** What a replay yields: its daily net returns, and the outcomes graded at each rebalance. */
  datatype Outcome =
    | Failed(error: ReplayError)
    | Track(net: seq<Point>, graded: seq<seq<Grade>>)

  /** The first k values of f. */
  function Collect<T>(f: nat -> T, k: nat): (s: seq<T>)
    ensures |s| == k
  {
    if k == 0 then [] else Collect(f, k - 1) + [f(k - 1)]
  }

  lemma {:induction false} CollectAt<T>(f: nat -> T, n: nat, k: nat)
    requires k < n
    ensures Collect(f, n)[k] == f(k)
  {
    if k < n - 1 {
      CollectAt(f, n - 1, k);
    }
  }

  /** The book of each rebalance. */
  function BookOf(r: Replayed): nat -> Backtest.Weights {
    (k: nat) => if k < |r.rebalances| then r.Book(k) else map[]
  }

  /** The outcomes graded at each rebalance. */
  function GradesAt(r: Replayed): nat -> seq<Grade> {
    (k: nat) => if k < |r.rebalances| then r.GradesOf(r.Informed(k), r.rebalances[k]) else []
  }

  /** The books of the first k rebalances. */
  function Books(r: Replayed, k: nat): (books: seq<Backtest.Weights>)
    ensures |books| == k
  {
    Collect(BookOf(r), k)
  }

  function AccountOf(r: Replayed, k: nat): Account
    requires k <= |r.rebalances|
  {
    Account(r.full, r.rebalances, Books(r, k), r.learner.change, r.learner.turnoverCost)
  }

  lemma AccountIsValid(r: Replayed, k: nat)
    requires r.Valid() && r.full.Valid() && k <= |r.rebalances|
    ensures AccountOf(r, k).Valid()
  {
  }

  /** One rebalance's share of the account. */
  method AccountRebalance(a: Account, w: Backtest.Weights, net: seq<Point>) returns (next: seq<Point>)
    requires a.Valid() && |a.books| < |a.rebalances| && net == a.Entries(0, |a.books|, |a.panel.rows|)
    ensures next == a.(books := a.books + [w]).Entries(0, |a.books| + 1, |a.panel.rows|)
  {
    var i, b := |a.books|, a.(books := a.books + [w]);
    var prev := if i == 0 then map[] else a.books[i - 1];
    var cost := a.turnoverCost(prev, w);
    MoreBooks(a, w, 0, i, |a.panel.rows|);
    NextPiece(b, i, |a.panel.rows|);
    if w != map[] {
      var piece := AccountPiece(b, i, cost);
      next := net + piece;
    } else {
      NoBookNoEntries(b, i, |a.panel.rows|);
      next := net;
    }
  }

  lemma {:induction false} NoBookNoEntries(a: Account, i: nat, n: nat)
    requires i < |a.books| && a.books[i] == map[] && n <= |a.panel.rows|
    ensures a.Entries(i, i + 1, n) == []
  {
    if n > 0 {
      NoBookNoEntries(a, i, n - 1);
    }
  }

  /** The cursor reads on to the first row not yet known at t. */
  method ReadNews(revealed: seq<Observation>, cursor: nat, t: int, ghost history: seq<Observation>)
    returns (next: nat, chunk: seq<Observation>)
    requires revealed == Revealed(history) && cursor <= |revealed|
    requires forall i :: 0 <= i < cursor ==> revealed[i].knowledgeTime <= t
    ensures cursor <= next <= |revealed| && chunk == revealed[cursor..next]
    ensures revealed[..next] == Prefix(history, t)
    ensures forall i :: 0 <= i < next ==> revealed[i].knowledgeTime <= t
    ensures next < |revealed| ==> revealed[next].knowledgeTime > t
  {
    next := cursor;
    while next < |revealed| && revealed[next].knowledgeTime <= t
      invariant cursor <= next <= |revealed|
      invariant forall i :: 0 <= i < next ==> revealed[i].knowledgeTime <= t
    {
      next := next + 1;
    }
    RevealedInOrder(history);
    PrefixOfOrdered(revealed, t, next);
    RevealedPrefix(history, t);
    chunk := revealed[cursor..next];
  }

  /** One rebalance of the replay on the store: reveal, grade, rank, log. */
  method LearnAt(r: Replayed, k: nat, store: InMemoryStore, chunk: seq<Observation>)
    returns (grades: seq<Grade>, ranked: seq<Record>)
    requires r.Learns() && k < |r.rebalances| && store.rows == r.Store(k) && chunk == r.news(k)
    modifies store
    ensures store.rows == r.Store(k + 1)
    ensures grades == r.GradesOf(r.Informed(k), r.rebalances[k]) && ranked == r.Ranked(k)
  {
    var t := r.rebalances[k];
    store.UpsertMany(chunk);
    InsightIs(r, store.rows, t);
    grades := GradePredictions(store, t, r.future, r.learner.model, r.learner.horizon, r.learner.change);
    ranked := r.learner.rank(store.rows, grades, t);
    store.UpsertMany(LoggedAll(ranked, t, r.learner));
  }

  lemma KnownLeads(rows: seq<Observation>, t: int)
    requires InKnowledgeOrder(rows)
    ensures Filter(rows, KnownBy(t)) <= rows
    ensures forall i :: 0 <= i < |Filter(rows, KnownBy(t))| ==> rows[i].knowledgeTime <= t
  {
    var cursor := 0;
    while cursor < |rows| && rows[cursor].knowledgeTime <= t
      invariant cursor <= |rows|
      invariant forall i :: 0 <= i < cursor ==> rows[i].knowledgeTime <= t
    {
      cursor := cursor + 1;
    }
    PrefixOfOrdered(rows, t, cursor);
  }

  /** What is known by t leads the rows in the order they became known. */
  lemma PrefixLeads(history: seq<Observation>, t: int)
    ensures Prefix(history, t) <= Revealed(history)
    ensures forall i :: 0 <= i < |Prefix(history, t)| ==> Revealed(history)[i].knowledgeTime <= t
  {
    RevealedInOrder(history);
    RevealedPrefix(history, t);
    KnownLeads(Revealed(history), t);
  }

  /** Advances the cursor from behind what was known before rebalance k over its news. */
  method Advance(r: Replayed, k: nat, revealed: seq<Observation>, cursor: nat)
    returns (next: nat, chunk: seq<Observation>)
    requires r.Valid() && k < |r.rebalances| && revealed == Revealed(r.history) && cursor == |r.Past(k)|
    ensures next == |r.Past(k + 1)| && chunk == r.news(k)
  {
    var t := r.rebalances[k];
    if k > 0 {
      assert r.rebalances[k - 1] <= t;
      KnownIs(r, r.rebalances[k - 1]);
      PrefixLeads(r.history, r.rebalances[k - 1]);
    }
    NewsIs(r, k);
    KnownIs(r, t);
    next, chunk := ReadNews(revealed, cursor, t, r.history);
    assert |revealed[..next]| == next;
    assert revealed[..next][cursor..] == chunk;
  }

  lemma NextAccount(r: Replayed, k: nat, w: Backtest.Weights)
    requires k < |r.rebalances| && w == BookOf(r)(k)
    ensures Books(r, k + 1) == Books(r, k) + [w]
    ensures AccountOf(r, k + 1) == AccountOf(r, k).(books := Books(r, k) + [w])
  {
  }

  /** The net returns after the first k rebalances are those of the account with their books. */
  ghost predicate Nets(r: Replayed, k: nat, account: Account, net: seq<Point>)
    requires k <= |r.rebalances|
  {
    account == AccountOf(r, k) && net == account.Entries(0, k, |r.full.rows|)
  }

  lemma NextNets(r: Replayed, k: nat, account: Account, w: Backtest.Weights, next: seq<Point>)
    requires k < |r.rebalances| && account == AccountOf(r, k) && w == BookOf(r)(k)
    requires next == account.(books := account.books + [w]).Entries(0, k + 1, |r.full.rows|)
    ensures Nets(r, k + 1, account.(books := account.books + [w]), next)
  {
    NextAccount(r, k, w);
  }

  /** One turn of the loop on the account. */
  method AccountNext(r: Replayed, k: nat, account: Account, w: Backtest.Weights, net: seq<Point>)
    returns (following: Account, next: seq<Point>)
    requires r.Valid() && r.full.Valid() && k < |r.rebalances| && w == BookOf(r)(k) && Nets(r, k, account, net)
    ensures Nets(r, k + 1, following, next)
  {
    AccountIsValid(r, k);
    next := AccountRebalance(account, w, net);
    following := account.(books := account.books + [w]);
    NextNets(r, k, account, w, next);
  }

  /** One turn of the loop on the store: what it learns, and the book it chooses. */
  method RebalanceOnce(r: Replayed, k: nat, store: InMemoryStore, chunk: seq<Observation>)
    returns (grades: seq<Grade>, w: Backtest.Weights)
    requires r.Learns() && k < |r.rebalances| && store.rows == r.Store(k) && chunk == r.news(k)
    modifies store
    ensures store.rows == r.Store(k + 1)
    ensures grades == GradesAt(r)(k) && w == BookOf(r)(k)
  {
    var ranked;
    grades, ranked := LearnAt(r, k, store, chunk);
    w := r.learner.size(Backtest.Visible(r.full, r.rebalances[k]), ranked);
  }

  /** The replay of a history: its full panel, and the schedule in order. */
  function ReplayOf(history: seq<Observation>, learner: Learner, schedule: seq<int>, future: int): Replayed {
    var rebalances := Backtest.Sorted(schedule);
    Replayed(history, FullPanel(history, learner.names), learner, rebalances, future,
             (rows, t) => InsightOf(learner, future, rows, t),
             t => Prefix(history, t), (k: nat) => NewsOf(history, rebalances, k))
  }

  lemma ReplayIsValid(history: seq<Observation>, learner: Learner, schedule: seq<int>, future: int)
    requires Deterministic(history)
    requires forall o :: o in history ==> o.knowledgeTime <= future
    requires forall i :: 0 <= i < |schedule| ==> schedule[i] <= future
    ensures var r := ReplayOf(history, learner, schedule, future);
      r.Valid() && r.Loaded() && r.full.Valid() && |r.rebalances| == |schedule|
      && Backtest.NoColumnTwice(r.full.columns)
  {
    FullColumnsAre(ReplayOf(history, learner, schedule, future));
    var rebalances := Backtest.Sorted(schedule);
    PriceFrameIsValid(Filter(history, IsPrice));
    Backtest.SortedAscends(schedule);
    SameElements(rebalances, schedule);
    forall i | 0 <= i < |rebalances| ensures rebalances[i] <= future {
      assert rebalances[i] in rebalances;
    }
  }

  /** The whole replay; without prices, or with fewer than two rebalances, or without a single return, it fails. */
  method ReplayLearning(history: seq<Observation>, learner: Learner, schedule: seq<int>, future: int)
    returns (outcome: Outcome)
    requires Deterministic(history)
    requires forall o :: o in history ==> o.knowledgeTime <= future
    requires forall i :: 0 <= i < |schedule| ==> schedule[i] <= future
    ensures var r := ReplayOf(history, learner, schedule, future);
      && (outcome == Failed(TooLittleInput) <==> r.full.rows == [] || r.full.columns == [] || |schedule| < 2)
      && (outcome.Track? ==>
            outcome.net == AllEntries(r) != [] && outcome.graded == Collect(GradesAt(r), |r.rebalances|))
      && (outcome == Failed(NoReturns) ==> AllEntries(r) == [])
      && (outcome.Track? ==> DaysOf(r, outcome.net))
  {
    var r := ReplayOf(history, learner, schedule, future);
    ReplayIsValid(history, learner, schedule, future);
    if r.full.rows == [] || r.full.columns == [] || |r.rebalances| < 2 {
      return Failed(TooLittleInput);
    }
    var net, graded := Run(r);
    if net == [] {
      return Failed(NoReturns);
    }
    NetIsDays(r, net);
    return Track(net, graded);
  }

  /** These are the days of the replay's account, in order and each once. */
  ghost predicate DaysOf(r: Replayed, net: seq<Point>) {
    && Ascending(net)
    && forall p :: p in net <==> exists j, k :: IsDay(AccountOf(r, |r.rebalances|), j, k, p)
  }

  lemma NetIsDays(r: Replayed, net: seq<Point>)
    requires r.Valid() && r.full.Valid() && Backtest.NoColumnTwice(r.full.columns) && net == AllEntries(r)
    ensures DaysOf(r, net)
  {
    var a := AccountOf(r, |r.rebalances|);
    AccountIsValid(r, |r.rebalances|);
    EntriesAscend(a, 0, |r.rebalances|, |r.full.rows|);
    forall p ensures p in net <==> exists j, k :: IsDay(a, j, k, p) {
      EntriesAreDays(a, |r.full.rows|, p);
    }
  }

  function AllEntries(r: Replayed): seq<Point> {
    AccountOf(r, |r.rebalances|).Entries(0, |r.rebalances|, |r.full.rows|)
  }

  /** The state of the loop when rebalance k starts. */
  ghost predicate Progress(r: Replayed, k: nat, rows: Rows, cursor: nat,
                           graded: seq<seq<Grade>>, account: Account, net: seq<Point>)
    requires k <= |r.rebalances|
  {
    && rows == r.Store(k)
    && cursor == |r.Past(k)|
    && graded == Collect(GradesAt(r), k)
    && Nets(r, k, account, net)
  }

  lemma LoopStarts(r: Replayed, account: Account)
    requires account == Account(r.full, r.rebalances, [], r.learner.change, r.learner.turnoverCost)
    ensures Progress(r, 0, [], 0, [], account, [])
  {
    NothingYet(account, |r.full.rows|);
  }

  /** One turn of the loop. */
  method Turn(r: Replayed, k: nat, store: InMemoryStore, revealed: seq<Observation>, cursor: nat,
              graded: seq<seq<Grade>>, account: Account, net: seq<Point>)
    returns (next: nat, allGraded: seq<seq<Grade>>, following: Account, allNet: seq<Point>)
    requires r.Valid() && r.full.Valid() && k < |r.rebalances| && revealed == Revealed(r.history)
    requires Progress(r, k, store.rows, cursor, graded, account, net)
    modifies store
    ensures Progress(r, k + 1, store.rows, next, allGraded, following, allNet)
  {
    var chunk, grades, w;
    next, chunk := Advance(r, k, revealed, cursor);
    grades, w := RebalanceOnce(r, k, store, chunk);
    allGraded := graded + [grades];
    following, allNet := AccountNext(r, k, account, w, net);
  }

  method Run(r: Replayed) returns (net: seq<Point>, graded: seq<seq<Grade>>)
    requires r.Valid() && r.full.Valid()
    ensures net == AllEntries(r) && graded == Collect(GradesAt(r), |r.rebalances|)
  {
    var revealed := Revealed(r.history);
    var store := new InMemoryStore();
    var cursor := 0;
    var account := Account(r.full, r.rebalances, [], r.learner.change, r.learner.turnoverCost);
    net, graded := [], [];
    LoopStarts(r, account);
    for k := 0 to |r.rebalances|
      invariant fresh(store) && Progress(r, k, store.rows, cursor, graded, account, net)
    {
      cursor, graded, account, net := Turn(r, k, store, revealed, cursor, graded, account, net);
    }
  }

  lemma {:induction false} NothingYet(a: Account, n: nat)
    requires a.books == [] && n <= |a.panel.rows|
    ensures a.Entries(0, 0, n) == []
  {
    if n > 0 {
      NothingYet(a, n - 1);
    }
  }
}
