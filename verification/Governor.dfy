/**
 * The governor over whole histories: engines are rebuilt, rebalances attempted and other rows ingested
 * in any interleaving, and the halting behaviour is that of one breaker that was never rebuilt.
 */
module Governor {
  import opened Prelude
  import opened Bitemporal
  import opened BitemporalLaws
  import opened Drawdown

  datatype Event =
    | Rebuild(now: int)                              // a new engine reads the store at its clock
    | Cycle(equity: real, asOf: int, badDay: bool)   // a rebalance is attempted
    | Ingest(o: Observation)                         // anyone, the audit of a rebalance included, writes a row

  /** The store, and the breaker and kill switch of the current engine. */
  datatype Desk = Desk(rows: Rows, breaker: Breaker, killed: bool)

  function Step(d: Desk, e: Event, maxDrawdown: real): Desk {
    match e
    case Rebuild(now) => Desk(d.rows, Load(d.rows, now), false)
    case Ingest(o) => d.(rows := Upsert(d.rows, o))
    case Cycle(equity, asOf, badDay) =>
      if d.killed then d
      else
        var b := Observe(d.breaker, equity, maxDrawdown);
        Desk(Upsert(d.rows, StateRow(asOf, b)), b, b.tripped || badDay)
  }

  /** A rebalance gets past the gates and may place orders. */
  predicate Trades(d: Desk, e: Event, maxDrawdown: real) {
    e.Cycle? && !d.killed && !Step(d, e, maxDrawdown).killed
  }

  function Run(d: Desk, events: seq<Event>, maxDrawdown: real): Desk {
    if events == [] then d
    else Step(Run(d, events[..|events| - 1], maxDrawdown), events[|events| - 1], maxDrawdown)
  }

  /** The equities some engine looked at: a killed engine refuses before it asks. */
  function Observed(d: Desk, events: seq<Event>, maxDrawdown: real): seq<real> {
    if events == [] then []
    else
      var init, last := events[..|events| - 1], events[|events| - 1];
      Observed(d, init, maxDrawdown) +
      if last.Cycle? && !Run(d, init, maxDrawdown).killed then [last.equity] else []
  }

  /** The one breaker that was never rebuilt. */
  function LongLived(d: Desk, events: seq<Event>, maxDrawdown: real): Breaker {
    Watched(Observed(d, events, maxDrawdown), maxDrawdown)
  }

  /** What has been saved so far, by time of rebalance. */
  function RecordAfter(d: Desk, events: seq<Event>, maxDrawdown: real): Record {
    if events == [] then map[]
    else
      var init, last := events[..|events| - 1], events[|events| - 1];
      var record := RecordAfter(d, init, maxDrawdown);
      if last.Cycle? && !Run(d, init, maxDrawdown).killed
      then record[last.asOf := Run(d, events, maxDrawdown).breaker] else record
  }

  function TimeOf(e: Event): int
    requires !e.Ingest?
  {
    match e case Rebuild(now) => now case Cycle(_, asOf, _) => asOf
  }

  /** What is ingested besides the state carries its content-derived identifier, and nobody else writes the state. */
  ghost predicate ForeignRows(events: seq<Event>) {
    forall e :: e in events && e.Ingest? ==> e.o.dataset != STATE_DATASET && e.o.id == e.o.DeterministicId()
  }

  /** Rebalance times never go back, and no engine is built on a clock behind a rebalance already recorded. */
  ghost predicate InOrder(events: seq<Event>) {
    forall i, j :: 0 <= i < j < |events| && events[i].Cycle? && !events[j].Ingest? ==>
      TimeOf(events[i]) <= TimeOf(events[j])
  }

  ghost predicate Orderly(events: seq<Event>) {
    InOrder(events) && ForeignRows(events)
  }

  /** An engine with a store on which no state is recorded yet. */
  ghost predicate Blank(d: Desk) {
    Recorded(d.rows, map[]) && d.breaker == FRESH && !d.killed
  }

  // ------------------------------------------------------------ equivalence

  function Positive(peak: Option<real>): real {
    match peak case None => 0.0 case Some(p) => Max(p, 0.0)
  }

  /** Two breakers no future equity can tell apart: a peak matters only where it is positive. */
  ghost predicate SameView(a: Breaker, b: Breaker) {
    a.tripped == b.tripped && Positive(a.peak) == Positive(b.peak)
  }

  /** A breaker can only have tripped from a positive peak. */
  ghost predicate Sound(b: Breaker) {
    b.tripped ==> Positive(b.peak) > 0.0
  }

  lemma ObserveKeepsSameView(a: Breaker, b: Breaker, equity: real, maxDrawdown: real)
    requires SameView(a, b) && Sound(a)
    ensures SameView(Observe(a, equity, maxDrawdown), Observe(b, equity, maxDrawdown))
    ensures Sound(Observe(a, equity, maxDrawdown))
  {
    var p, q := RaisedPeak(a.peak, equity), RaisedPeak(b.peak, equity);
    assert Max(p, 0.0) == Max(q, 0.0);
    if p > 0.0 {
      assert p == q;
    }
  }

  lemma RestoreKeepsSameView(b: Breaker, asOf: int)
    requires Sound(b)
    ensures SameView(Restored(StateRow(asOf, b)), b) && Sound(Restored(StateRow(asOf, b)))
  {
  }

  ghost predicate NothingAfter(record: Record, t: int) {
    forall u :: u in record ==> u <= t
  }

  /** The latest state on record looks like this breaker. */
  ghost predicate SavedLast(record: Record, b: Breaker) {
    if record == map[] then b == FRESH
    else exists t :: t in record && NothingAfter(record, t) && SameView(record[t], b) && Sound(record[t])
  }

  lemma {:induction false} RunKeepsRecord(d: Desk, events: seq<Event>, maxDrawdown: real)
    requires Blank(d) && ForeignRows(events)
    ensures Recorded(Run(d, events, maxDrawdown).rows, RecordAfter(d, events, maxDrawdown))
    ensures forall t :: t in RecordAfter(d, events, maxDrawdown) ==>
      exists i :: 0 <= i < |events| && events[i].Cycle? && events[i].asOf == t
  {
    if events != [] {
      var init, last := events[..|events| - 1], events[|events| - 1];
      RunKeepsRecord(d, init, maxDrawdown);
      var before := Run(d, init, maxDrawdown);
      if last.Cycle? && !before.killed {
        SavingUpdatesTheRecord(before.rows, RecordAfter(d, init, maxDrawdown), last.asOf,
          Observe(before.breaker, last.equity, maxDrawdown));
      } else if last.Ingest? {
        assert last in events;
        OtherDatasetsKeepTheRecord(before.rows, RecordAfter(d, init, maxDrawdown), last.o);
      }
      forall t | t in RecordAfter(d, events, maxDrawdown)
        ensures exists i :: 0 <= i < |events| && events[i].Cycle? && events[i].asOf == t
      {
        if t in RecordAfter(d, init, maxDrawdown) {
          var i :| 0 <= i < |init| && init[i].Cycle? && init[i].asOf == t;
          assert events[i] == init[i];
        } else {
          assert events[|events| - 1].asOf == t;
        }
      }
    }
  }

  lemma OrderlyPrefix(events: seq<Event>)
    requires Orderly(events) && events != []
    ensures Orderly(events[..|events| - 1])
  {
  }

  /** In an orderly run nothing on record is later than the next rebuild or rebalance. */
  lemma RecordIsBehind(d: Desk, events: seq<Event>, maxDrawdown: real)
    requires Blank(d) && Orderly(events) && events != [] && !events[|events| - 1].Ingest?
    ensures NothingAfter(RecordAfter(d, events[..|events| - 1], maxDrawdown), TimeOf(events[|events| - 1]))
  {
    var init := events[..|events| - 1];
    RunKeepsRecord(d, init, maxDrawdown);
    forall t | t in RecordAfter(d, init, maxDrawdown) ensures t <= TimeOf(events[|events| - 1]) {
      var i :| 0 <= i < |init| && init[i].Cycle? && init[i].asOf == t;
      assert events[i] == init[i];
    }
  }

  /** Between events: the breaker in force and the newest record both look like the long-lived breaker. */
  ghost predicate Tracks(d: Desk, events: seq<Event>, maxDrawdown: real) {
    var ideal := LongLived(d, events, maxDrawdown);
    && Sound(ideal)
    && SameView(Run(d, events, maxDrawdown).breaker, ideal)
    && SavedLast(RecordAfter(d, events, maxDrawdown), ideal)
  }

  /**
   * Per-cycle engines refine one long-lived breaker: after any orderly run of rebuilds, rebalances
   * and ingestions, for any equities, the breaker in force cannot be told from one fed every
   * observed equity.
   */
  lemma {:induction false} RebuiltBreakersRefineOne(d: Desk, events: seq<Event>, maxDrawdown: real)
    requires Blank(d) && Orderly(events)
    ensures Tracks(d, events, maxDrawdown)
  {
    if events != [] {
      OrderlyPrefix(events);
      var init := events[..|events| - 1];
      RebuiltBreakersRefineOne(d, init, maxDrawdown);
      if events[|events| - 1].Ingest? {
        assert Observed(d, events, maxDrawdown) == Observed(d, init, maxDrawdown);
      } else {
        RecordIsBehind(d, events, maxDrawdown);
        if events[|events| - 1].Rebuild? {
          RebuildTracks(d, events, maxDrawdown);
        } else {
          CycleTracks(d, events, maxDrawdown);
        }
      }
    }
  }

  lemma RebuildTracks(d: Desk, events: seq<Event>, maxDrawdown: real)
    requires Blank(d) && ForeignRows(events) && events != [] && events[|events| - 1].Rebuild?
    requires Tracks(d, events[..|events| - 1], maxDrawdown)
    requires NothingAfter(RecordAfter(d, events[..|events| - 1], maxDrawdown), TimeOf(events[|events| - 1]))
    ensures Tracks(d, events, maxDrawdown)
  {
    var init, now := events[..|events| - 1], events[|events| - 1].now;
    var rows, record := Run(d, init, maxDrawdown).rows, RecordAfter(d, init, maxDrawdown);
    var ideal := LongLived(d, init, maxDrawdown);
    assert Observed(d, events, maxDrawdown) == Observed(d, init, maxDrawdown);
    RunKeepsRecord(d, init, maxDrawdown);
    if record == map[] {
      LoadRestoresLatest(rows, record, now, now);
    } else {
      var t :| t in record && NothingAfter(record, t) && SameView(record[t], ideal) && Sound(record[t]);
      LoadRestoresLatest(rows, record, now, t);
      RestoreKeepsSameView(record[t], t);
    }
  }

  lemma CycleTracks(d: Desk, events: seq<Event>, maxDrawdown: real)
    requires Blank(d) && ForeignRows(events) && events != [] && events[|events| - 1].Cycle?
    requires Tracks(d, events[..|events| - 1], maxDrawdown)
    requires NothingAfter(RecordAfter(d, events[..|events| - 1], maxDrawdown), TimeOf(events[|events| - 1]))
    ensures Tracks(d, events, maxDrawdown)
  {
    var init, last := events[..|events| - 1], events[|events| - 1];
    var before := Run(d, init, maxDrawdown);
    var seen := Observed(d, init, maxDrawdown);
    var ideal := LongLived(d, init, maxDrawdown);
    if before.killed {
      assert Observed(d, events, maxDrawdown) == seen;
    } else {
      CycleObserves(d, events, maxDrawdown);
      ObserveKeepsSameView(ideal, before.breaker, last.equity, maxDrawdown);
      ObserveKeepsSameView(before.breaker, ideal, last.equity, maxDrawdown);
      SavedNow(RecordAfter(d, init, maxDrawdown), last.asOf, Run(d, events, maxDrawdown).breaker,
               LongLived(d, events, maxDrawdown));
    }
  }

  /** A rebalance with the switch open shows its equity to both breakers, and records the one in force. */
  lemma CycleObserves(d: Desk, events: seq<Event>, maxDrawdown: real)
    requires events != [] && events[|events| - 1].Cycle? && !Run(d, events[..|events| - 1], maxDrawdown).killed
    ensures var init, last := events[..|events| - 1], events[|events| - 1];
      var b := Observe(Run(d, init, maxDrawdown).breaker, last.equity, maxDrawdown);
      && Run(d, events, maxDrawdown).breaker == b
      && LongLived(d, events, maxDrawdown) == Observe(LongLived(d, init, maxDrawdown), last.equity, maxDrawdown)
      && RecordAfter(d, events, maxDrawdown) == RecordAfter(d, init, maxDrawdown)[last.asOf := b]
  {
    var seen := Observed(d, events[..|events| - 1], maxDrawdown);
    var all := Observed(d, events, maxDrawdown);
    assert all == seen + [events[|events| - 1].equity] && all[..|all| - 1] == seen;
  }

  lemma SavedNow(record: Record, asOf: int, b: Breaker, ideal: Breaker)
    requires NothingAfter(record, asOf) && SameView(b, ideal) && Sound(b)
    ensures SavedLast(record[asOf := b], ideal)
  {
    assert asOf in record[asOf := b] && NothingAfter(record[asOf := b], asOf);
  }

  // ------------------------------------------------------------ consequences

  /** With no negative equity the restored breaker is, after each observation, equal to the long-lived one. */
  lemma ExactAfterObservation(d: Desk, events: seq<Event>, maxDrawdown: real)
    requires Blank(d) && Orderly(events) && events != []
    requires forall e :: e in events && e.Cycle? ==> e.equity >= 0.0
    requires events[|events| - 1].Cycle? && !Run(d, events[..|events| - 1], maxDrawdown).killed
    ensures Run(d, events, maxDrawdown).breaker == LongLived(d, events, maxDrawdown)
  {
    var init, last := events[..|events| - 1], events[|events| - 1];
    OrderlyPrefix(events);
    RebuiltBreakersRefineOne(d, init, maxDrawdown);
    RebuiltBreakersRefineOne(d, events, maxDrawdown);
    var seen, all := Observed(d, init, maxDrawdown), Observed(d, events, maxDrawdown);
    assert all == seen + [last.equity] && all[..|all| - 1] == seen;
    assert last in events;
    var a, b := Run(d, init, maxDrawdown).breaker, LongLived(d, init, maxDrawdown);
    NonNegativePeak(a.peak, b.peak, last.equity);
  }

  lemma NonNegativePeak(a: Option<real>, b: Option<real>, equity: real)
    requires Positive(a) == Positive(b) && equity >= 0.0
    ensures RaisedPeak(a, equity) == RaisedPeak(b, equity)
  {
  }

  /** Rebuilding an engine changes what its breaker will remember exactly if a zero peak meets a negative equity. */
  lemma RebuildChangesPeakIff(b: Breaker, asOf: int, equity: real, maxDrawdown: real)
    requires b.peak.Some? && Sound(b)
    ensures Observe(Restored(StateRow(asOf, b)), equity, maxDrawdown) == Observe(b, equity, maxDrawdown)
      <==> !(b.peak == Some(0.0) && equity < 0.0)
  {
  }

  /**
   * Which rows an engine restores from: the last saved state exactly if its time is on the engine's clock and
   * none is later.
   */
  lemma RestoresLastSaveIff(rows: Rows, record: Record, now: int, t: int)
    requires Recorded(rows, record) && t in record
    ensures
      (AsOf(rows, now, OfDataset(STATE_DATASET)) != []
       && NewestEvent(AsOf(rows, now, OfDataset(STATE_DATASET))) == StateRow(t, record[t]))
      <==> LatestOnRecord(record, now, t)
  {
    var found := AsOf(rows, now, OfDataset(STATE_DATASET));
    AsOfReadsTheRecord(rows, record, now);
    if found != [] {
      NewestEventIsGreatest(found);
      var n := NewestEvent(found);
      assert n in found;
      forall u | u in record && u <= now ensures u <= n.eventTime {
        assert StateRow(u, record[u]) in found;
      }
    }
    if LatestOnRecord(record, now, t) {
      assert StateRow(t, record[t]) in found;
    }
  }

  lemma WatchedStaysTripped(seen: seq<real>, equity: real, maxDrawdown: real)
    requires Watched(seen, maxDrawdown).tripped
    ensures Watched(seen + [equity], maxDrawdown).tripped
  {
    assert (seen + [equity])[..|seen|] == seen;
  }

  lemma {:induction false} ObservationsOnlyGrow(d: Desk, events: seq<Event>, n: nat, maxDrawdown: real)
    requires n <= |events| && LongLived(d, events[..n], maxDrawdown).tripped
    ensures LongLived(d, events, maxDrawdown).tripped
    decreases |events|
  {
    if n < |events| {
      var init, last := events[..|events| - 1], events[|events| - 1];
      assert init[..n] == events[..n];
      ObservationsOnlyGrow(d, init, n, maxDrawdown);
      if last.Cycle? && !Run(d, init, maxDrawdown).killed {
        WatchedStaysTripped(Observed(d, init, maxDrawdown), last.equity, maxDrawdown);
      } else {
        assert Observed(d, events, maxDrawdown) == Observed(d, init, maxDrawdown);
      }
    } else {
      assert events[..n] == events;
    }
  }

  /** Once the long-lived breaker has tripped, no later rebalance of any engine trades. */
  lemma TrippedNeverTradesAgain(d: Desk, events: seq<Event>, n: nat, next: Event, maxDrawdown: real)
    requires Blank(d) && Orderly(events) && n <= |events|
    requires LongLived(d, events[..n], maxDrawdown).tripped
    ensures !Trades(Run(d, events, maxDrawdown), next, maxDrawdown)
  {
    ObservationsOnlyGrow(d, events, n, maxDrawdown);
    RebuiltBreakersRefineOne(d, events, maxDrawdown);
  }

  /**
   * A rebalance trades exactly if no gate of its engine is closed: the switch, the drawdown as the long-lived
   * breaker sees it, the day.
   */
  lemma TradesIff(d: Desk, events: seq<Event>, next: Event, maxDrawdown: real)
    requires Blank(d) && Orderly(events) && next.Cycle?
    ensures var before := Run(d, events, maxDrawdown);
      Trades(before, next, maxDrawdown) <==>
        && !before.killed
        && !next.badDay
        && !FellFromPeak(Observed(d, events, maxDrawdown) + [next.equity], maxDrawdown)
  {
    RebuiltBreakersRefineOne(d, events, maxDrawdown);
    var before, ideal := Run(d, events, maxDrawdown), LongLived(d, events, maxDrawdown);
    var all := Observed(d, events, maxDrawdown) + [next.equity];
    assert all[..|all| - 1] == Observed(d, events, maxDrawdown);
    ObserveKeepsSameView(before.breaker, ideal, next.equity, maxDrawdown);
    BreakerMeaning(all, maxDrawdown);
  }

  /**
   * The daily-loss halt is not like that: it lives in the engine's switch alone. After a halting bad
   * day, the same engine stays halted, but a rebuilt one trades on the next good day.
   */
  lemma DailyHaltEndsWithTheEngine(d: Desk, badEquity: real, asOf: int, now: int, equity: real, later: int,
                                   maxDrawdown: real)
    requires Blank(d) && asOf <= now && asOf <= later && 0.0 < badEquity <= equity && 0.0 < maxDrawdown
    ensures var halted := [Cycle(badEquity, asOf, true)];
      && !Trades(d, halted[0], maxDrawdown)
      && !Trades(Run(d, halted, maxDrawdown), Cycle(equity, later, false), maxDrawdown)
      && Trades(Run(d, halted + [Rebuild(now)], maxDrawdown), Cycle(equity, later, false), maxDrawdown)
  {
    var halted := [Cycle(badEquity, asOf, true)];
    var rebuilt := halted + [Rebuild(now)];
    var b := Breaker(Some(badEquity), false);
    AtThePeak(badEquity, maxDrawdown);
    AtThePeak(equity, maxDrawdown);
    assert halted[..0] == [] && rebuilt[..1] == halted;
    assert Run(d, [], maxDrawdown) == d;
    var stopped := Run(d, halted, maxDrawdown);
    assert stopped == Desk(Upsert(d.rows, StateRow(asOf, b)), b, true);
    SavingUpdatesTheRecord(d.rows, map[], asOf, b);
    LoadRestoresLatest(stopped.rows, map[asOf := b], now, asOf);
    assert Run(d, rebuilt, maxDrawdown) == Desk(stopped.rows, b, false);
  }

  /** An equity that is its own peak is no drawdown. */
  lemma AtThePeak(equity: real, maxDrawdown: real)
    requires equity > 0.0 && maxDrawdown > 0.0
    ensures !Breached(equity, equity, maxDrawdown)
  {
    assert equity / equity == 1.0;
  }
}
