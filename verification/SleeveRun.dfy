/** Sleeve passes over time: what every pass keeps, from an empty log on. */
module SleeveRun {
  import opened Prelude
  import opened Ordering
  import opened Bitemporal
  import opened BitemporalLaws
  import opened SleeveLog
  import opened InsiderEvents
  import opened InsiderSleeve

  // -------------------------------------------------------------------- one pass

  lemma OfferedAreDistinct(clusters: seq<Cluster>, asOf: int, car: Option<real>, settings: Settings, live: set<string>)
    requires OnePerName(clusters)
    ensures var offered := Offered(clusters, asOf, car, settings, live);
      && OnePerSymbol(offered) && |offered| <= Slots(settings, live) && Symbols(offered) !! live
      && forall e :: e in offered ==> e.exitBy == asOf + settings.holdDays * DAY
  {
    var offered := Offered(clusters, asOf, car, settings, live);
    if offered != [] {
      ChosenAreEligible(clusters, asOf, FRESHNESS_DAYS, live, Slots(settings, live));
      var chosen := Chosen(clusters, asOf, FRESHNESS_DAYS, live, Slots(settings, live));
      forall e | e in offered ensures e.symbol !in live && e.exitBy == asOf + settings.holdDays * DAY {
        var i :| 0 <= i < |offered| && offered[i] == e;
        assert chosen[i] in chosen;
      }
    }
  }

  lemma ActiveIsReadable(rows: Rows, asOf: int)
    requires Ready(rows, asOf)
    ensures OneRowPerName(Active(rows, asOf)) && AllOpen(Active(rows, asOf))
    ensures forall o :: o in Active(rows, asOf) <==> LastOf(Log(rows), o.entityId) == Some(o) && IsOpen(o)
  {
    var t :| t < asOf && Orderly(Log(rows), t);
    ActiveIsOwned(rows, t, asOf);
  }

  /** What a pass writes extends the log by its closings, then its openings. */
  lemma PassIsLogged(rows: Rows, clusters: seq<Cluster>, asOf: int, date: string, car: Option<real>, settings: Settings)
    requires Ready(rows, asOf) && OnePerName(clusters)
    ensures var d := Decide(rows, clusters, asOf, date, car, settings);
      Wrote(AfterPass(rows, clusters, asOf, date, car, settings), rows, d.closings + d.openings, asOf)
  {
    var active := Active(rows, asOf);
    ActiveIsReadable(rows, asOf);
    var prices := PricesOf(AsOf(rows, asOf, OfDataset(PRICE_DATASET)), settings.universe + NameSet(active));
    var closings := Closings(active, prices, asOf, date, settings);
    var live := NameSet(active) - NameSet(closings);
    var offered := Offered(clusters, asOf, car, settings, live);
    ClosingsAre(active, prices, asOf, date, settings);
    OfferedAreDistinct(clusters, asOf, car, settings, live);
    OpeningsAre(offered, prices, asOf, date);
    PassRowsAreWritten(closings, Openings(offered, prices, asOf, date), asOf, date);
    WrittenPrefix(closings, closings + Openings(offered, prices, asOf, date), asOf);
    assert Log(rows) + [] == Log(rows) && [] + closings == closings;
    WriteAll(rows, rows, [], closings, asOf);
    OpenWritesAreLogged(UpsertAll(rows, closings), rows, closings, offered, prices, asOf, date, settings);
  }

  lemma LiveAreNotClosed(active: Rows, closings: Rows)
    ensures (set o | o in active && o.entityId !in Names(closings) :: o.entityId) == NameSet(active) - NameSet(closings)
  {
    forall s ensures s in Names(closings) <==> s in NameSet(closings) {
      if s in Names(closings) {
        var i :| 0 <= i < |closings| && Names(closings)[i] == s;
        assert closings[i] in closings;
      }
      if s in NameSet(closings) {
        var o :| o in closings && o.entityId == s;
        var i :| 0 <= i < |closings| && closings[i] == o;
        assert Names(closings)[i] == s;
      }
    }
  }

  /** The entries for the free slots, if there are any. */
  method FillSlots(clusters: seq<Cluster>, asOf: int, car: Option<real>, settings: Settings, live: set<string>)
    returns (entries: seq<Entry>)
    ensures entries == Offered(clusters, asOf, car, settings, live)
  {
    entries := [];
    var slots := Slots(settings, live);
    if slots > 0 {
      entries := InsiderClusterEntries(clusters, asOf, car, settings.holdDays, slots, FRESHNESS_DAYS, live);
    }
  }

  lemma DecisionFrom(rows: Rows, clusters: seq<Cluster>, asOf: int, date: string, car: Option<real>, settings: Settings,
                     active: Rows, prices: PriceMap, entries: seq<Entry>)
    requires active == Active(rows, asOf) && AllOpen(active)
    requires prices == PricesOf(AsOf(rows, asOf, OfDataset(PRICE_DATASET)), settings.universe + NameSet(active))
    requires entries
      == Offered(clusters, asOf, car, settings,
                 NameSet(active) - NameSet(Closings(active, prices, asOf, date, settings)))
    ensures Decide(rows, clusters, asOf, date, car, settings) == Decision(
      Closings(active, prices, asOf, date, settings), Openings(entries, prices, asOf, date),
      OpenWrites(entries, prices, asOf, date, settings))
  {
  }

  /** One pass: close what is due, then open what the entry rule offers for the slots left. */
  method RunCycle(store: InMemoryStore, settings: Settings, asOf: int, date: string, clusters: seq<Cluster>,
                  car: Option<real>)
    returns (openedNames: seq<string>, closedNames: seq<string>, target: map<string, real>)
    modifies store
    ensures store.rows == AfterPass(old(store.rows), clusters, asOf, date, car, settings)
    ensures var d := Decide(old(store.rows), clusters, asOf, date, car, settings);
      && openedNames == Names(d.openings) && closedNames == Names(d.closings)
      && target == Targets(d.closings, d.openings, settings)
  {
    var active := ActivePositions(store, asOf);
    AllAreOpen(store.rows, asOf);
    var prices := LatestPrices(store, asOf, settings.universe + NameSet(active));
    ghost var closings := Closings(active, prices, asOf, date, settings);
    closedNames, target := ClosePositions(store, active, prices, asOf, date, settings);
    var live := set o | o in active && o.entityId !in closedNames :: o.entityId;
    LiveAreNotClosed(active, closings);
    var entries := FillSlots(clusters, asOf, car, settings, live);
    DecisionFrom(old(store.rows), clusters, asOf, date, car, settings, active, prices, entries);
    openedNames, target := OpenPositions(store, entries, prices, asOf, date, settings, target, closings);
  }

  /** The prices a pass goes by, and the names it still owns after its closings. */
  function PassPrices(rows: Rows, asOf: int, settings: Settings): PriceMap {
    PricesOf(AsOf(rows, asOf, OfDataset(PRICE_DATASET)), settings.universe + NameSet(Active(rows, asOf)))
  }

  function StillOwned(rows: Rows, asOf: int, d: Decision): set<string> {
    NameSet(Active(rows, asOf)) - NameSet(d.closings)
  }

  /** A position is closed if its time is up or it has lost the stop, and only then. */
  ghost predicate ClosesRightly(d: Decision, o: Observation, prices: PriceMap, asOf: int, settings: Settings)
    requires IsOpen(o)
  {
    o.entityId in NameSet(d.closings) <==> asOf >= o.value.exitBy || LostTheStop(o, prices, settings.stopLoss)
  }

  /**
   * With the gate open and a slot free, only fresh, priced names are opened, and such a name is, unless every slot was
   * offered to one no older; otherwise nothing is opened.
   */
  ghost predicate OpensRightly(d: Decision, c: Cluster, clusters: seq<Cluster>, prices: PriceMap, asOf: int,
                               car: Option<real>, settings: Settings, live: set<string>)
  {
    if car.None? || car.value <= 0.0 || settings.maxNames <= |live| then d.openings == []
    else
      && OpensOnly(d.openings, clusters, prices, asOf, settings, live)
      && (c in clusters && IsFresh(c, asOf, 5, live) && c.entityId in prices ==>
            || IsOpened(d.openings, c, prices, asOf, settings.holdDays)
            || exists offered :: SlotsAreTaken(offered, clusters, asOf, car.value, settings, live, c))
  }

  /** What a pass decides about any position and any cluster, from the store it finds. */
  lemma PassDecides(rows: Rows, clusters: seq<Cluster>, asOf: int, date: string, car: Option<real>, settings: Settings,
                    o: Observation, c: Cluster)
    requires Ready(rows, asOf)
    ensures var d := Decide(rows, clusters, asOf, date, car, settings);
      && (o in Active(rows, asOf) ==>
            IsOpen(o) && ClosesRightly(d, o, PassPrices(rows, asOf, settings), asOf, settings))
      && OpensRightly(d, c, clusters, PassPrices(rows, asOf, settings), asOf, car, settings,
                      StillOwned(rows, asOf, d))
  {
    var d, prices := Decide(rows, clusters, asOf, date, car, settings), PassPrices(rows, asOf, settings);
    ActiveIsReadable(rows, asOf);
    if o in Active(rows, asOf) {
      ClosedIff(Active(rows, asOf), prices, asOf, date, settings, o);
    }
    var live := StillOwned(rows, asOf, d);
    if car.None? || car.value <= 0.0 || settings.maxNames <= |live| {
      NothingToOpen(clusters, prices, asOf, date, car, settings, live);
    } else {
      PassOpens(clusters, prices, asOf, date, car.value, settings, live, c);
    }
  }

  lemma AllAreOpen(rows: Rows, asOf: int)
    ensures AllOpen(Active(rows, asOf))
  {
    FilterElements(LatestBySymbol(AsOf(rows, asOf, OfDataset(SLEEVE_DATASET))), IsOpen);
  }

  // -------------------------------------------------------------- what is then owned

  lemma {:induction false} LastOfAppend(a: Rows, b: Rows, symbol: string)
    ensures LastOf(a + b, symbol) == if LastOf(b, symbol).Some? then LastOf(b, symbol) else LastOf(a, symbol)
  {
    if b == [] {
      assert a + b == a;
    } else {
      assert (a + b)[..|a + b| - 1] == a + b[..|b| - 1];
      LastOfAppend(a, b[..|b| - 1], symbol);
    }
  }

  lemma {:induction false} LastOfExists(rows: Rows, symbol: string)
    ensures LastOf(rows, symbol).Some? <==> symbol in NameSet(rows)
  {
    if rows != [] {
      LastOfExists(rows[..|rows| - 1], symbol);
      assert rows == rows[..|rows| - 1] + [rows[|rows| - 1]];
      NamesOfAppend(rows[..|rows| - 1], rows[|rows| - 1]);
    }
  }

  /** A name is owned after a pass if it was opened in it, or was owned before and not closed in it. */
  lemma OwnedAfterPass(log: Rows, closings: Rows, openings: Rows, symbol: string)
    requires forall c :: c in closings ==> !IsOpen(c)
    requires forall o :: o in openings ==> IsOpen(o)
    ensures LastOf(log + (closings + openings), symbol)
      == if symbol in NameSet(openings) then LastOf(openings, symbol)
         else if symbol in NameSet(closings) then LastOf(closings, symbol)
         else LastOf(log, symbol)
    ensures Owned(log + (closings + openings), symbol)
      <==> symbol in NameSet(openings) || (Owned(log, symbol) && symbol !in NameSet(closings))
  {
    LastOfAppend(log, closings + openings, symbol);
    LastOfAppend(closings, openings, symbol);
    LastOfExists(openings, symbol);
    LastOfExists(closings, symbol);
  }

  lemma ActiveNames(rows: Rows, t: int, now: int, symbol: string)
    requires Orderly(Log(rows), t) && t <= now
    ensures symbol in NameSet(Active(rows, now)) <==> Owned(Log(rows), symbol)
  {
    ActiveIsOwned(rows, t, now);
    if Owned(Log(rows), symbol) {
      assert LastOf(Log(rows), symbol).value in Active(rows, now);
    }
  }

  // ------------------------------------------------------------------ the invariant

  /** After the pass at t: an orderly log, no more names than allowed, none past its time box. */
  ghost predicate SleeveKept(rows: Rows, t: int, settings: Settings) {
    && WellFormed(rows) && Orderly(Log(rows), t)
    && AllOpen(Active(rows, t))
    && |NameSet(Active(rows, t))| <= settings.maxNames
    && forall o :: o in Active(rows, t) ==> o.value.exitBy > t
  }

  /** The names owned after a pass: those owned before that were not closed, and those opened. */
  lemma PassUpdatesOwned(rows: Rows, after: Rows, t: int, asOf: int, closings: Rows, openings: Rows)
    requires Orderly(Log(rows), t) && t < asOf && Wrote(after, rows, closings + openings, asOf)
    requires forall c :: c in closings ==> !IsOpen(c)
    requires forall o :: o in openings ==> IsOpen(o)
    ensures NameSet(Active(after, asOf)) == (NameSet(Active(rows, asOf)) - NameSet(closings)) + NameSet(openings)
  {
    WroteIsOrderly(after, rows, closings + openings, asOf);
    forall s ensures s in NameSet(Active(after, asOf))
      <==> s in (NameSet(Active(rows, asOf)) - NameSet(closings)) + NameSet(openings)
    {
      ActiveNames(after, asOf, asOf, s);
      ActiveNames(rows, t, asOf, s);
      OwnedAfterPass(Log(rows), closings, openings, s);
    }
  }

  lemma {:induction false} NameSetIsSmall(rows: Rows)
    ensures |NameSet(rows)| <= |rows|
  {
    if rows != [] {
      var init, last := rows[..|rows| - 1], rows[|rows| - 1];
      NameSetIsSmall(init);
      NamesOfAppend(init, last);
      assert rows == init + [last];
    }
  }

  /** Later read-backs see the same positions, until something is written. */
  lemma ReadBackLater(rows: Rows, t: int, now: int)
    requires Orderly(Log(rows), t) && t <= now
    ensures Active(rows, now) == Active(rows, t)
  {
    QueryReturnsTheLog(rows, t, now);
    QueryReturnsTheLog(rows, t, t);
  }

  /** What a pass decides, split into what the invariant needs. */
  lemma DecisionIs(rows: Rows, clusters: seq<Cluster>, asOf: int, date: string, car: Option<real>, settings: Settings)
    returns (prices: PriceMap)
    requires Ready(rows, asOf) && OnePerName(clusters)
    ensures var d, active := Decide(rows, clusters, asOf, date, car, settings), Active(rows, asOf);
      var live := NameSet(active) - NameSet(d.closings);
      && AllOpen(active) && CloseExactly(d.closings, active, prices, asOf, date, settings)
      && |d.openings| <= Slots(settings, live)
      && (forall o :: o in d.openings ==> IsOpen(o) && o.value.exitBy == asOf + settings.holdDays * DAY)
      && NameSet(d.openings) !! live
  {
    var active := Active(rows, asOf);
    ActiveIsReadable(rows, asOf);
    prices := PricesOf(AsOf(rows, asOf, OfDataset(PRICE_DATASET)), settings.universe + NameSet(active));
    var closings := Closings(active, prices, asOf, date, settings);
    var live := NameSet(active) - NameSet(closings);
    ClosingsAre(active, prices, asOf, date, settings);
    OfferedAreDistinct(clusters, asOf, car, settings, live);
    OpeningsAre(Offered(clusters, asOf, car, settings, live), prices, asOf, date);
  }

  /** Every pass keeps the invariant. */
  lemma PassKeepsSleeve(rows: Rows, after: Rows, t: int, clusters: seq<Cluster>, asOf: int, date: string,
                        car: Option<real>,
                        settings: Settings)
    requires SleeveKept(rows, t, settings) && t < asOf && OnePerName(clusters) && settings.holdDays > 0
    requires var d := Decide(rows, clusters, asOf, date, car, settings);
      Wrote(after, rows, d.closings + d.openings, asOf)
    ensures SleeveKept(after, asOf, settings)
    ensures var d := Decide(rows, clusters, asOf, date, car, settings);
      NameSet(Active(after, asOf)) == (NameSet(Active(rows, t)) - NameSet(d.closings)) + NameSet(d.openings)
  {
    var d := Decide(rows, clusters, asOf, date, car, settings);
    var prices := DecisionIs(rows, clusters, asOf, date, car, settings);
    WroteIsOrderly(after, rows, d.closings + d.openings, asOf);
    PassUpdatesOwned(rows, after, t, asOf, d.closings, d.openings);
    ReadBackLater(rows, t, asOf);
    RoomForAll(NameSet(Active(rows, asOf)), d.closings, d.openings, settings);
    NoneExpired(rows, after, t, asOf, date, d.closings, d.openings, prices, settings);
  }

  lemma RoomForAll(owned: set<string>, closings: Rows, openings: Rows, settings: Settings)
    requires |owned| <= settings.maxNames && |openings| <= Slots(settings, owned - NameSet(closings))
    ensures |(owned - NameSet(closings)) + NameSet(openings)| <= settings.maxNames
  {
    var live := owned - NameSet(closings);
    SubsetSize(live, owned);
    NameSetIsSmall(openings);
    UnionSize(live, NameSet(openings));
  }

  lemma NoneExpired(rows: Rows, after: Rows, t: int, asOf: int, date: string, closings: Rows, openings: Rows,
                    prices: PriceMap,
                    settings: Settings)
    requires Orderly(Log(rows), t) && t < asOf && Wrote(after, rows, closings + openings, asOf) && settings.holdDays > 0
    requires AllOpen(Active(rows, asOf)) && CloseExactly(closings, Active(rows, asOf), prices, asOf, date, settings)
    requires forall o :: o in openings ==> IsOpen(o) && o.value.exitBy == asOf + settings.holdDays * DAY
    ensures AllOpen(Active(after, asOf)) && forall o :: o in Active(after, asOf) ==> o.value.exitBy > asOf
  {
    WroteIsOrderly(after, rows, closings + openings, asOf);
    ActiveIsOwned(after, asOf, asOf);
    ActiveIsOwned(rows, t, asOf);
    forall o | o in Active(after, asOf) ensures IsOpen(o) && o.value.exitBy > asOf {
      OwnedAfterPass(Log(rows), closings, openings, o.entityId);
      if o.entityId in NameSet(openings) {
        assert o in openings;
      } else {
        assert o in Active(rows, asOf) && !Due(o, prices, asOf, settings);
      }
    }
  }

  /** The capital of all owned names together stays within the sleeve's budget. */
  lemma WithinBudget(rows: Rows, t: int, settings: Settings)
    requires SleeveKept(rows, t, settings) && settings.maxNames >= 1 && settings.budget >= 0.0
    ensures Times(|NameSet(Active(rows, t))| as real, PerName(settings)) <= settings.budget
  {
    PartsOfBudget(|NameSet(Active(rows, t))| as real, settings.maxNames as real, settings.budget);
  }

  lemma PartsOfBudget(n: real, m: real, budget: real)
    requires 0.0 <= n <= m && m > 0.0 && budget >= 0.0
    ensures Times(n, budget / m) <= budget
  {
    var part := budget / m;
    assert part * m == budget;
    assert part >= 0.0;
    MulMono(n, m, part);
  }

  /** Rows of other datasets, whenever they arrive, leave the sleeve as it is. */
  lemma {:induction false} NewsKeepsSleeve(rows: Rows, t: int, news: seq<Observation>, settings: Settings)
    requires SleeveKept(rows, t, settings) && Deterministic(news)
    requires forall o :: o in news ==> !IsSleeve(o)
    ensures SleeveKept(UpsertAll(rows, news), t, settings)
    ensures Active(UpsertAll(rows, news), t) == Active(rows, t)
  {
    if news != [] {
      var init, last := news[..|news| - 1], news[|news| - 1];
      assert Deterministic(init);
      NewsKeepsSleeve(rows, t, init, settings);
      var before := UpsertAll(rows, init);
      assert last in news;
      OtherRowsLeaveTheLog(before, last);
      OneUpsertWellFormed(before, last);
      QueryReturnsTheLog(before, t, t);
      QueryReturnsTheLog(Upsert(before, last), t, t);
    }
  }

  // ------------------------------------------------------------------------ runs

  /** One turn of a run: what other components ingested since the last, and the inputs of the pass. */
  datatype Turn = Turn(asOf: int, date: string, news: seq<Observation>, clusters: seq<Cluster>, car: Option<real>)

  ghost predicate Proper(turns: seq<Turn>) {
    && (forall i, j :: 0 <= i < j < |turns| ==> turns[i].asOf < turns[j].asOf)
    && (forall i :: 0 <= i < |turns| ==> ProperTurn(turns[i]))
  }

  ghost predicate ProperTurn(turn: Turn) {
    && Deterministic(turn.news) && OnePerName(turn.clusters)
    && forall o :: o in turn.news ==> !IsSleeve(o)
  }

  /** What the pass of a turn decides, in a store that other components have just written to. */
  function DecidedIn(prior: Rows, turn: Turn, settings: Settings): Decision {
    Decide(UpsertAll(prior, turn.news), turn.clusters, turn.asOf, turn.date, turn.car, settings)
  }

  /** The store after a turn: other components' rows come in, then the pass writes its own. */
  function AfterTurn(prior: Rows, turn: Turn, settings: Settings): Rows {
    AfterPass(UpsertAll(prior, turn.news), turn.clusters, turn.asOf, turn.date, turn.car, settings)
  }

  /** The names owned, as the store reads back at time t. */
  function OwnedNames(rows: Rows, t: int): set<string> {
    NameSet(Active(rows, t))
  }

  /** One turn, from the store before it to the one behind it. */
  ghost predicate Turned(prior: Rows, turn: Turn, d: Decision, after: Rows, settings: Settings) {
    d == DecidedIn(prior, turn, settings) && after == AfterTurn(prior, turn, settings)
  }

  /** The first m turns of a run from an empty log: the stores between the turns, and what each turn decided. */
  ghost predicate IsRun(turns: seq<Turn>, m: nat, stores: seq<Rows>, decisions: seq<Decision>, settings: Settings)
    requires m <= |turns|
  {
    && |stores| == m + 1 && |decisions| == m && stores[0] == []
    && forall n {:trigger TurnAt(turns, stores, decisions, n, settings)} :: 0 <= n < m ==>
         TurnAt(turns, stores, decisions, n, settings)
  }

  ghost predicate TurnAt(turns: seq<Turn>, stores: seq<Rows>, decisions: seq<Decision>, n: nat, settings: Settings)
    requires n < |turns| && n < |decisions| && n + 1 < |stores|
  {
    Turned(stores[n], turns[n], decisions[n], stores[n + 1], settings)
  }

  /**
   * What a turn leaves behind: at most the allowed names active, none past its time box and all within the budget,
   * and the names read back are those read back before it, less what its pass closed, plus what it opened.
   */
  ghost predicate TurnKept(prior: Rows, t: int, d: Decision, after: Rows, settings: Settings) {
    && SleeveKept(after, t, settings)
    && OwnedNames(after, t) == (OwnedNames(prior, t) - NameSet(d.closings)) + NameSet(d.openings)
    && (settings.budget >= 0.0 ==> Times(|OwnedNames(after, t)| as real, PerName(settings)) <= settings.budget)
  }

  lemma EmptyIsKept(t: int, settings: Settings)
    requires settings.maxNames >= 0
    ensures SleeveKept([], t, settings) && Active([], t) == []
  {
    assert Log([]) == [];
    QueryReturnsTheLog([], t, t);
    assert SortObservations([]) == [];
  }

  lemma TurnKeepsSleeve(prior: Rows, t: int, turn: Turn, d: Decision, after: Rows, settings: Settings)
    requires SleeveKept(prior, t, settings) && t < turn.asOf && ProperTurn(turn)
    requires Turned(prior, turn, d, after, settings) && settings.maxNames >= 1 && settings.holdDays > 0
    ensures TurnKept(prior, turn.asOf, d, after, settings)
  {
    var before := UpsertAll(prior, turn.news);
    NewsKeepsSleeve(prior, t, turn.news, settings);
    assert Ready(before, turn.asOf);
    PassIsLogged(before, turn.clusters, turn.asOf, turn.date, turn.car, settings);
    PassKeepsSleeve(before, after, t, turn.clusters, turn.asOf, turn.date, turn.car, settings);
    ReadBackLater(prior, t, turn.asOf);
    if settings.budget >= 0.0 {
      WithinBudget(after, turn.asOf, settings);
    }
  }

  lemma TurnAtKeepsSleeve(turns: seq<Turn>, stores: seq<Rows>, decisions: seq<Decision>, n: nat, t: int,
                          settings: Settings)
    requires Proper(turns) && IsRun(turns, |turns|, stores, decisions, settings) && n < |turns|
    requires SleeveKept(stores[n], t, settings) && t < turns[n].asOf
    requires settings.maxNames >= 1 && settings.holdDays > 0
    ensures TurnKept(stores[n], turns[n].asOf, decisions[n], stores[n + 1], settings)
  {
    assert ProperTurn(turns[n]);
    assert TurnAt(turns, stores, decisions, n, settings);
    TurnKeepsSleeve(stores[n], t, turns[n], decisions[n], stores[n + 1], settings);
  }

  /** The time of the pass before turn n, or any time before the first. */
  function TimeBefore(turns: seq<Turn>, n: nat): int
    requires n < |turns|
  {
    if n == 0 then turns[0].asOf - 1 else turns[n - 1].asOf
  }

  lemma TurnKeepsStore(turns: seq<Turn>, stores: seq<Rows>, decisions: seq<Decision>, n: nat, t: int, next: int,
                       settings: Settings)
    requires Proper(turns) && IsRun(turns, |turns|, stores, decisions, settings) && 0 < n <= |turns|
    requires SleeveKept(stores[n - 1], t, settings) && t < turns[n - 1].asOf == next
    requires settings.maxNames >= 1 && settings.holdDays > 0
    ensures SleeveKept(stores[n], next, settings)
  {
    TurnAtKeepsSleeve(turns, stores, decisions, n - 1, t, settings);
  }

  lemma StartIsKept(store: Rows, t: int, settings: Settings)
    requires store == [] && settings.maxNames >= 0
    ensures SleeveKept(store, t, settings)
  {
    EmptyIsKept(t, settings);
  }

  lemma {:induction false} KeptBefore(turns: seq<Turn>, stores: seq<Rows>, decisions: seq<Decision>, n: nat, t: int,
                                      settings: Settings)
    requires Proper(turns) && IsRun(turns, |turns|, stores, decisions, settings)
    requires n < |turns| && t == TimeBefore(turns, n)
    requires settings.maxNames >= 1 && settings.holdDays > 0
    ensures SleeveKept(stores[n], t, settings)
  {
    if n == 0 {
      StartIsKept(stores[0], t, settings);
    } else {
      var before := TimeBefore(turns, n - 1);
      KeptBefore(turns, stores, decisions, n - 1, before, settings);
      assert before < turns[n - 1].asOf == t;
      TurnKeepsStore(turns, stores, decisions, n, before, t, settings);
    }
  }

  /** Every turn of every run at strictly increasing times keeps all of it. */
  lemma EveryTurnKeepsSleeve(turns: seq<Turn>, stores: seq<Rows>, decisions: seq<Decision>, n: nat, settings: Settings)
    requires Proper(turns) && IsRun(turns, |turns|, stores, decisions, settings) && n < |turns|
    requires settings.maxNames >= 1 && settings.holdDays > 0
    ensures TurnKept(stores[n], turns[n].asOf, decisions[n], stores[n + 1], settings)
  {
    KeptBefore(turns, stores, decisions, n, TimeBefore(turns, n), settings);
    TurnAtKeepsSleeve(turns, stores, decisions, n, TimeBefore(turns, n), settings);
  }

  /** What a turn reports is what it decided. */
  ghost predicate Reported(d: Decision, opens: seq<string>, closes: seq<string>, target: map<string, real>,
                           settings: Settings)
  {
    opens == Names(d.openings) && closes == Names(d.closings) && target == Targets(d.closings, d.openings, settings)
  }

  /** One turn: other components' rows come in, then the pass. */
  method TakeTurn(store: InMemoryStore, settings: Settings, turn: Turn)
    returns (opens: seq<string>, closes: seq<string>, target: map<string, real>, ghost d: Decision)
    modifies store
    ensures Turned(old(store.rows), turn, d, store.rows, settings)
    ensures Reported(d, opens, closes, target, settings)
  {
    d := DecidedIn(store.rows, turn, settings);
    store.UpsertMany(turn.news);
    opens, closes, target := RunCycle(store, settings, turn.asOf, turn.date, turn.clusters, turn.car);
  }

  lemma RunGoesOn(turns: seq<Turn>, m: nat, stores: seq<Rows>, decisions: seq<Decision>, d: Decision, after: Rows,
                  settings: Settings)
    requires m < |turns| && IsRun(turns, m, stores, decisions, settings)
    requires Turned(stores[m], turns[m], d, after, settings)
    ensures IsRun(turns, m + 1, stores + [after], decisions + [d], settings)
  {
    forall n | 0 <= n <= m ensures TurnAt(turns, stores + [after], decisions + [d], n, settings) {
      if n < m {
        assert TurnAt(turns, stores, decisions, n, settings);
      }
    }
  }

  /** The next turn of a run. */
  method NextTurn(store: InMemoryStore, settings: Settings, turns: seq<Turn>, n: nat,
                  ghost stores: seq<Rows>, ghost decisions: seq<Decision>)
    returns (opens: seq<string>, closes: seq<string>, target: map<string, real>, ghost d: Decision)
    requires n < |turns| && IsRun(turns, n, stores, decisions, settings) && store.rows == stores[n]
    modifies store
    ensures IsRun(turns, n + 1, stores + [store.rows], decisions + [d], settings)
    ensures Reported(d, opens, closes, target, settings)
  {
    opens, closes, target, d := TakeTurn(store, settings, turns[n]);
    RunGoesOn(turns, n, stores, decisions, d, store.rows, settings);
  }

  /**
   * A run of the sleeve: each turn decides from the store the one before it left behind, and reports what it
   * decided.
   */
  method RunSleeve(settings: Settings, turns: seq<Turn>)
    returns (store: InMemoryStore, opens: seq<seq<string>>, closes: seq<seq<string>>, targets: seq<map<string, real>>,
             ghost stores: seq<Rows>, ghost decisions: seq<Decision>)
    ensures IsRun(turns, |turns|, stores, decisions, settings) && store.rows == stores[|turns|]
    ensures |opens| == |closes| == |targets| == |turns|
    ensures forall n :: 0 <= n < |turns| ==> Reported(decisions[n], opens[n], closes[n], targets[n], settings)
  {
    store := new InMemoryStore();
    opens, closes, targets := [], [], [];
    stores, decisions := [store.rows], [];
    for n := 0 to |turns|
      invariant fresh(store) && IsRun(turns, n, stores, decisions, settings) && store.rows == stores[n]
      invariant |opens| == |closes| == |targets| == n
      invariant forall i :: 0 <= i < n ==> Reported(decisions[i], opens[i], closes[i], targets[i], settings)
    {
      var openedNow, closedNow, target, d := NextTurn(store, settings, turns, n, stores, decisions);
      opens, closes, targets := opens + [openedNow], closes + [closedNow], targets + [target];
      stores, decisions := stores + [store.rows], decisions + [d];
    }
  }
}
