/** One pass of the insider sleeve: close what is due, open what is fresh, and remember both in the log. */
module InsiderSleeve {
  import opened Prelude
  import opened Ordering
  import opened Bitemporal
  import opened BitemporalLaws
  import opened SleeveLog
  import opened InsiderEvents

  const SLEEVE_MODEL := "insider_sleeve"
  const FRESHNESS_DAYS := 5

  datatype Settings = Settings(maxNames: int, budget: real, holdDays: int, stopLoss: real, universe: set<string>)

  type PriceMap = map<string, real>

  /** The last non-zero close of each wanted name, in query order. */
  function PricesOf(rows: Rows, wanted: set<string>): PriceMap {
    if rows == [] then map[]
    else
      var o, before := rows[|rows| - 1], PricesOf(rows[..|rows| - 1], wanted);
      if o.entityId in wanted && o.value.Price? && o.value.close != 0.0 then before[o.entityId := o.value.close]
      else before
  }

  method LatestPrices(store: InMemoryStore, asOf: int, wanted: set<string>) returns (prices: PriceMap)
    ensures prices == PricesOf(AsOf(store.rows, asOf, OfDataset(PRICE_DATASET)), wanted)
  {
    var rows := store.Query(asOf, OfDataset(PRICE_DATASET));
    prices := map[];
    for n := 0 to |rows|
      invariant prices == PricesOf(rows[..n], wanted)
    {
      assert rows[..n + 1][..n] == rows[..n];
      var o := rows[n];
      if o.entityId in wanted && o.value.Price? && o.value.close != 0.0 {
        prices := prices[o.entityId := o.value.close];
      }
    }
    assert rows[..|rows|] == rows;
  }

  method ActivePositions(store: InMemoryStore, asOf: int) returns (active: Rows)
    ensures active == Active(store.rows, asOf)
  {
    var records := store.Query(asOf, OfDataset(SLEEVE_DATASET));
    var latest := FillLatest(records);
    active := [];
    for n := 0 to |latest|
      invariant active == Filter(latest[..n], IsOpen)
    {
      FilterStep(latest, n, IsOpen);
      if IsOpen(latest[n]) {
        active := active + [latest[n]];
      }
    }
    assert latest[..|latest|] == latest;
  }

  // ---------------------------------------------------------------- what is due

  /** The price has fallen from entry by at least the stop. */
  predicate Stopped(o: Observation, prices: PriceMap, settings: Settings)
    requires IsOpen(o)
  {
    && o.entityId in prices
    && o.value.entryPrice > 0.0 && settings.stopLoss > 0.0
    && prices[o.entityId] / o.value.entryPrice - 1.0 <= -settings.stopLoss
  }

  predicate Due(o: Observation, prices: PriceMap, asOf: int, settings: Settings)
    requires IsOpen(o)
  {
    asOf >= o.value.exitBy || Stopped(o, prices, settings)
  }

  function Closing(o: Observation, prices: PriceMap, asOf: int, date: string, settings: Settings): Observation
    requires IsOpen(o)
  {
    CloseRow(o.entityId, asOf, date, if Stopped(o, prices, settings) then "stop" else "horizon")
  }

  ghost predicate AllOpen(active: Rows) {
    forall o :: o in active ==> IsOpen(o)
  }

  /** The rows written for the positions that are due. */
  function Closings(active: Rows, prices: PriceMap, asOf: int, date: string, settings: Settings): Rows
    requires AllOpen(active)
  {
    if active == [] then []
    else
      var o := active[|active| - 1];
      Closings(active[..|active| - 1], prices, asOf, date, settings)
      + if Due(o, prices, asOf, settings) then [Closing(o, prices, asOf, date, settings)] else []
  }

  function Opening(e: Entry, prices: PriceMap, asOf: int, date: string): Observation
    requires e.symbol in prices
  {
    OpenRow(e.symbol, asOf, date, prices[e.symbol], e.exitBy, e.nBuys)
  }

  /** The rows written for the entries that have a price. */
  function Openings(entries: seq<Entry>, prices: PriceMap, asOf: int, date: string): Rows {
    if entries == [] then []
    else
      var e := entries[|entries| - 1];
      Openings(entries[..|entries| - 1], prices, asOf, date)
      + if e.symbol in prices then [Opening(e, prices, asOf, date)] else []
  }

  function Names(rows: Rows): (names: seq<string>)
    ensures |names| == |rows|
  {
    seq(|rows|, i requires 0 <= i < |rows| => rows[i].entityId)
  }

  function NameSet(rows: Rows): set<string> {
    set o | o in rows :: o.entityId
  }

  function Clamp(p: real): real {
    Min(1.0, Max(0.0, p))
  }

  /** The gradeable prediction logged with an entry. */
  function EntryPrediction(e: Entry, asOf: int, settings: Settings): Observation {
    Observation("forecast", PREDICTION_DATASET, "equity", e.symbol, Some(SLEEVE_MODEL), asOf, asOf, 0,
      Prediction(Clamp(e.expectedCar * 10.0), settings.holdDays), Random(0)).WithDeterministicId()
  }

  // ------------------------------------------------------------------ log growth

  /** The state before anything of this pass is written: an orderly log that ends before it. */
  ghost predicate Ready(rows: Rows, asOf: int) {
    WellFormed(rows) && exists t :: t < asOf && Orderly(Log(rows), t)
  }

  /** Rows written in this pass, all at its time, no two alike. */
  ghost predicate Written(rows: Rows, asOf: int) {
    && (forall o :: o in rows ==> StateRowOf(o, asOf) && o.eventTime == asOf && o.id == o.DeterministicId())
    && (forall i, j :: 0 <= i < j < |rows| ==> rows[i].id != rows[j].id && rows[i].LogicalKey() != rows[j].LogicalKey())
  }

  /** The store after this pass has written some rows: the old log, then they. */
  ghost predicate Wrote(rows: Rows, before: Rows, written: Rows, asOf: int) {
    WellFormed(rows) && Log(rows) == Log(before) + written && Ready(before, asOf) && Written(written, asOf)
  }

  lemma WriteOne(rows: Rows, before: Rows, written: Rows, asOf: int, o: Observation)
    requires Wrote(rows, before, written, asOf) && Written(written + [o], asOf)
    ensures Wrote(Upsert(rows, o), before, written + [o], asOf)
  {
    var t :| t < asOf && Orderly(Log(before), t);
    assert o in written + [o];
    forall p | p in Log(rows) ensures p.id != o.id {
      if p in Log(before) {
        FilterElements(before, IsSleeve);
        assert p.id == p.DeterministicId();
        assert StateRowOf(p, t);
      } else {
        var i :| 0 <= i < |written| && written[i] == p;
        assert (written + [o])[i].id != (written + [o])[|written|].id;
      }
    }
    NewRowExtendsTheLog(rows, o);
    UpsertElements(rows, o);
    OneUpsertWellFormed(rows, o);
  }

  lemma OneUpsertWellFormed(rows: Rows, o: Observation)
    requires WellFormed(rows) && o.id == o.DeterministicId()
    ensures WellFormed(Upsert(rows, o))
  {
    UpsertElements(rows, o);
  }

  lemma WriteOther(rows: Rows, before: Rows, written: Rows, asOf: int, o: Observation)
    requires Wrote(rows, before, written, asOf) && !IsSleeve(o) && o.id == o.DeterministicId()
    ensures Wrote(Upsert(rows, o), before, written, asOf)
  {
    OtherRowsLeaveTheLog(rows, o);
    OneUpsertWellFormed(rows, o);
  }

  /** Rows of the pass may be written one after the other. */
  lemma {:induction false} WriteAll(rows: Rows, before: Rows, written: Rows, more: Rows, asOf: int)
    requires Wrote(rows, before, written, asOf) && Written(written + more, asOf)
    ensures Wrote(UpsertAll(rows, more), before, written + more, asOf)
  {
    if more == [] {
      assert written + more == written;
    } else {
      var init, last := more[..|more| - 1], more[|more| - 1];
      assert written + more == written + init + [last];
      WrittenPrefix(written + init, written + more, asOf);
      WriteAll(rows, before, written, init, asOf);
      WriteOne(UpsertAll(rows, init), before, written + init, asOf, last);
    }
  }

  lemma WrittenPrefix(a: Rows, b: Rows, asOf: int)
    requires a <= b && Written(b, asOf)
    ensures Written(a, asOf)
  {
    forall o | o in a ensures o in b {
      var i :| 0 <= i < |a| && a[i] == o;
      assert b[i] == o;
    }
    forall i, j | 0 <= i < j < |a| ensures a[i].id != a[j].id && a[i].LogicalKey() != a[j].LogicalKey() {
      assert a[i] == b[i] && a[j] == b[j];
    }
  }

  /** Rows of this pass with their names: a close or an open row each. */
  ghost predicate Closes(o: Observation, asOf: int, date: string) {
    exists reason :: o == CloseRow(o.entityId, asOf, date, reason)
  }

  ghost predicate Opens(o: Observation, asOf: int, date: string) {
    exists price, exitBy, n :: o == OpenRow(o.entityId, asOf, date, price, exitBy, n)
  }

  /** The closings of some positions: of different names among theirs, and of exactly those that are due. */
  ghost predicate CloseExactly(closings: Rows, active: Rows, prices: PriceMap, asOf: int, date: string,
                               settings: Settings)
    requires AllOpen(active)
  {
    && OneRowPerName(closings)
    && (forall c :: c in closings ==> Closes(c, asOf, date) && c.value.SleeveClosed?)
    && NameSet(closings) <= NameSet(active)
    && (forall o :: o in active ==> (o.entityId in NameSet(closings) <==> Due(o, prices, asOf, settings)))
  }

  lemma NamesOfAppend(rows: Rows, o: Observation)
    ensures NameSet(rows + [o]) == NameSet(rows) + {o.entityId}
  {
  }

  lemma NewName(rows: Rows, o: Observation)
    requires OneRowPerName(rows) && o.entityId !in NameSet(rows)
    ensures OneRowPerName(rows + [o])
  {
    forall i | 0 <= i < |rows| ensures rows[i].entityId != o.entityId {
      assert rows[i] in rows;
    }
  }

  lemma LastNameIsNew(init: Rows, last: Observation)
    requires OneRowPerName(init + [last])
    ensures OneRowPerName(init) && last.entityId !in NameSet(init)
  {
    var all := init + [last];
    forall i, j | 0 <= i < j < |init| ensures init[i].entityId != init[j].entityId {
      assert all[i].entityId != all[j].entityId;
    }
    forall o | o in init ensures o.entityId != last.entityId {
      var i :| 0 <= i < |init| && init[i] == o;
      assert all[i].entityId != all[|init|].entityId;
    }
  }

  lemma CloseOneMore(before: Rows, init: Rows, last: Observation, prices: PriceMap, asOf: int, date: string,
                     settings: Settings)
    requires AllOpen(init + [last]) && AllOpen(init) && OneRowPerName(init + [last])
    requires CloseExactly(before, init, prices, asOf, date, settings)
    ensures
      var after :=
        before + if Due(last, prices, asOf, settings) then [Closing(last, prices, asOf, date, settings)] else [];
      CloseExactly(after, init + [last], prices, asOf, date, settings)
  {
    var row := Closing(last, prices, asOf, date, settings);
    LastNameIsNew(init, last);
    NamesOfAppend(init, last);
    assert last.entityId !in NameSet(before);
    assert forall o :: o in init ==> o.entityId in NameSet(init);
    if Due(last, prices, asOf, settings) {
      NewName(before, row);
      NamesOfAppend(before, row);
      assert Closes(row, asOf, date);
    } else {
      assert before + [] == before;
    }
  }

  lemma {:induction false} ClosingsAre(active: Rows, prices: PriceMap, asOf: int, date: string, settings: Settings)
    requires OneRowPerName(active) && AllOpen(active)
    ensures CloseExactly(Closings(active, prices, asOf, date, settings), active, prices, asOf, date, settings)
  {
    if active != [] {
      var init, last := active[..|active| - 1], active[|active| - 1];
      assert active == init + [last];
      LastNameIsNew(init, last);
      ClosingsAre(init, prices, asOf, date, settings);
      CloseOneMore(Closings(init, prices, asOf, date, settings), init, last, prices, asOf, date, settings);
    }
  }

  /** The symbols of some entries. */
  function Symbols(entries: seq<Entry>): set<string> {
    set e | e in entries :: e.symbol
  }

  ghost predicate OnePerSymbol(entries: seq<Entry>) {
    forall i, j :: 0 <= i < j < |entries| ==> entries[i].symbol != entries[j].symbol
  }

  /** The openings of some entries: of different names among theirs, each open until its entry's exit. */
  ghost predicate OpenSome(openings: Rows, entries: seq<Entry>, asOf: int, date: string) {
    && OneRowPerName(openings) && |openings| <= |entries| && NameSet(openings) <= Symbols(entries)
    && (forall o :: o in openings ==> Opens(o, asOf, date) && IsOpen(o) && ExitOf(o, entries))
  }

  ghost predicate ExitOf(o: Observation, entries: seq<Entry>)
    requires IsOpen(o)
  {
    exists e :: e in entries && e.exitBy == o.value.exitBy
  }

  lemma OpenOneMore(before: Rows, init: seq<Entry>, last: Entry, prices: PriceMap, asOf: int, date: string)
    requires OpenSome(before, init, asOf, date) && last.symbol !in Symbols(init)
    ensures var after := before + if last.symbol in prices then [Opening(last, prices, asOf, date)] else [];
      OpenSome(after, init + [last], asOf, date)
  {
    assert Symbols(init) <= Symbols(init + [last]) && last.symbol in Symbols(init + [last]) by {
      assert last in init + [last];
      forall e | e in init ensures e.symbol in Symbols(init + [last]) {
        assert e in init + [last];
      }
    }
    forall o | o in before ensures ExitOf(o, init + [last]) {
      var e :| e in init && e.exitBy == o.value.exitBy;
      assert e in init + [last];
    }
    if last.symbol in prices {
      var row := Opening(last, prices, asOf, date);
      NewName(before, row);
      NamesOfAppend(before, row);
      assert Opens(row, asOf, date);
      assert last in init + [last];
      assert ExitOf(row, init + [last]);
    } else {
      assert before + [] == before;
    }
  }

  lemma {:induction false} OpeningsAre(entries: seq<Entry>, prices: PriceMap, asOf: int, date: string)
    requires OnePerSymbol(entries)
    ensures OpenSome(Openings(entries, prices, asOf, date), entries, asOf, date)
  {
    if entries != [] {
      var init, last := entries[..|entries| - 1], entries[|entries| - 1];
      OpeningsAre(init, prices, asOf, date);
      assert entries == init + [last];
      forall e | e in init ensures e.symbol != last.symbol {
        var i :| 0 <= i < |init| && init[i] == e;
        assert entries[i].symbol != entries[|entries| - 1].symbol;
      }
      OpenOneMore(Openings(init, prices, asOf, date), init, last, prices, asOf, date);
    }
  }

  lemma CloseAndOpenDiffer(c: Observation, o: Observation, asOf: int, date: string)
    requires Closes(c, asOf, date) && Opens(o, asOf, date)
    ensures c.id != o.id && c.LogicalKey() != o.LogicalKey()
  {
    assert c.ref.value[0] == 'c' && o.ref.value[0] == 'o';
  }

  /** The rows of a pass are new, of its time, and no two alike. */
  lemma PassRowsAreWritten(closings: Rows, openings: Rows, asOf: int, date: string)
    requires OneRowPerName(closings) && OneRowPerName(openings)
    requires forall c :: c in closings ==> Closes(c, asOf, date)
    requires forall o :: o in openings ==> Opens(o, asOf, date)
    ensures Written(closings + openings, asOf)
  {
    var all := closings + openings;
    forall o | o in all ensures StateRowOf(o, asOf) && o.eventTime == asOf && o.id == o.DeterministicId() {
    }
    forall i, j | 0 <= i < j < |all| ensures all[i].id != all[j].id && all[i].LogicalKey() != all[j].LogicalKey() {
      if i < |closings| <= j {
        CloseAndOpenDiffer(closings[i], openings[j - |closings|], asOf, date);
      } else {
        assert all[i].entityId != all[j].entityId;
        assert all[i].id == all[i].DeterministicId() && all[j].id == all[j].DeterministicId();
      }
    }
  }

  lemma WroteIsOrderly(rows: Rows, before: Rows, written: Rows, asOf: int)
    requires Wrote(rows, before, written, asOf)
    ensures Orderly(Log(rows), asOf)
  {
    var t :| t < asOf && Orderly(Log(before), t);
    var old', log := Log(before), Log(rows);
    forall o | o in log ensures StateRowOf(o, asOf) {
      if o in old' {
        assert StateRowOf(o, t);
      }
    }
    forall i, j | 0 <= i < j < |log|
      ensures log[i].eventTime <= log[j].eventTime && log[i].LogicalKey() != log[j].LogicalKey()
    {
      if j < |old'| {
        assert log[i] == old'[i] && log[j] == old'[j];
      } else {
        assert log[j] == written[j - |old'|] && log[j] in written;
        if i < |old'| {
          assert log[i] == old'[i] && old'[i] in old';
          assert StateRowOf(old'[i], t);
        } else {
          assert log[i] == written[i - |old'|] && log[i] in written;
        }
      }
    }
  }

  // -------------------------------------------------------------------- the pass

  function Slots(settings: Settings, live: set<string>): int {
    if settings.maxNames > |live| then settings.maxNames - |live| else 0
  }

  /** What the entry rule offers for the free slots. */
  function Offered(clusters: seq<Cluster>, asOf: int, car: Option<real>, settings: Settings,
                   live: set<string>): seq<Entry>
  {
    if Slots(settings, live) == 0 || car.None? || car.value <= 0.0 then []
    else
      EntriesFor(
        Chosen(clusters, asOf, FRESHNESS_DAYS, live, Slots(settings, live)), asOf, settings.holdDays, car.value)
  }

  /** The rows written for the entries that have a price: each open row is followed by its prediction. */
  function OpenWrites(entries: seq<Entry>, prices: PriceMap, asOf: int, date: string, settings: Settings): Rows {
    if entries == [] then []
    else
      var e := entries[|entries| - 1];
      OpenWrites(entries[..|entries| - 1], prices, asOf, date, settings)
      + if e.symbol in prices then [Opening(e, prices, asOf, date), EntryPrediction(e, asOf, settings)] else []
  }

  /** Everything one pass decides, from the store it starts with; it writes the closings, then the opening writes. */
  datatype Decision = Decision(closings: Rows, openings: Rows, openWrites: Rows)

  function Decide(rows: Rows, clusters: seq<Cluster>, asOf: int, date: string, car: Option<real>,
                  settings: Settings): Decision
  {
    var active := Active(rows, asOf);
    FilterElements(LatestBySymbol(AsOf(rows, asOf, OfDataset(SLEEVE_DATASET))), IsOpen);
    var prices := PricesOf(AsOf(rows, asOf, OfDataset(PRICE_DATASET)), settings.universe + NameSet(active));
    var closings := Closings(active, prices, asOf, date, settings);
    var offered := Offered(clusters, asOf, car, settings, NameSet(active) - NameSet(closings));
    Decision(closings, Openings(offered, prices, asOf, date), OpenWrites(offered, prices, asOf, date, settings))
  }

  /** The store after a pass. */
  function AfterPass(rows: Rows, clusters: seq<Cluster>, asOf: int, date: string, car: Option<real>,
                     settings: Settings): Rows
  {
    var d := Decide(rows, clusters, asOf, date, car, settings);
    UpsertAll(UpsertAll(rows, d.closings), d.openWrites)
  }

  /** Each opened name gets an equal part of the budget; a name that is only closed goes to zero. */
  function Targets(closings: Rows, openings: Rows, settings: Settings): map<string, real> {
    map s | s in NameSet(closings) + NameSet(openings) :: if s in NameSet(openings) then PerName(settings) else 0.0
  }

  function PerName(settings: Settings): real {
    settings.budget / (if settings.maxNames > 1 then settings.maxNames else 1) as real
  }

  lemma ClosingsStep(active: Rows, n: nat, prices: PriceMap, asOf: int, date: string, settings: Settings)
    requires AllOpen(active) && n < |active|
    ensures AllOpen(active[..n]) && AllOpen(active[..n + 1]) && IsOpen(active[n])
    ensures Closings(active[..n + 1], prices, asOf, date, settings)
      == Closings(active[..n], prices, asOf, date, settings)
      + if Due(active[n], prices, asOf, settings) then [Closing(active[n], prices, asOf, date, settings)] else []
  {
    assert active[..n + 1][..n] == active[..n];
  }

  lemma TargetsOfClosing(closings: Rows, o: Observation, settings: Settings)
    ensures Targets(closings, [], settings)[o.entityId := 0.0] == Targets(closings + [o], [], settings)
  {
    NamesOfAppend(closings, o);
  }

  lemma TargetsOfOpening(closings: Rows, openings: Rows, o: Observation, settings: Settings)
    ensures Targets(closings, openings, settings)[o.entityId := PerName(settings)]
      == Targets(closings, openings + [o], settings)
  {
    NamesOfAppend(openings, o);
  }

  lemma NamesGrow(rows: Rows, o: Observation)
    ensures Names(rows + [o]) == Names(rows) + [o.entityId]
  {
  }

  lemma UpsertOneMore(rows: Rows, os: Rows, o: Observation)
    ensures UpsertAll(rows, os + [o]) == Upsert(UpsertAll(rows, os), o)
  {
    assert (os + [o])[..|os|] == os;
  }

  /** The closing loop: every due position gets a zero target and a close row. */
  method ClosePositions(store: InMemoryStore, active: Rows, prices: PriceMap, asOf: int, date: string,
                        settings: Settings)
    returns (closedNames: seq<string>, target: map<string, real>)
    requires AllOpen(active)
    modifies store
    ensures store.rows == UpsertAll(old(store.rows), Closings(active, prices, asOf, date, settings))
    ensures closedNames == Names(Closings(active, prices, asOf, date, settings))
    ensures target == Targets(Closings(active, prices, asOf, date, settings), [], settings)
  {
    closedNames, target := [], map[];
    assert active[..0] == [];
    for n := 0 to |active|
      invariant AllOpen(active[..n])
      invariant store.rows == UpsertAll(old(store.rows), Closings(active[..n], prices, asOf, date, settings))
      invariant closedNames == Names(Closings(active[..n], prices, asOf, date, settings))
      invariant target == Targets(Closings(active[..n], prices, asOf, date, settings), [], settings)
    {
      ghost var closings := Closings(active[..n], prices, asOf, date, settings);
      ClosingsStep(active, n, prices, asOf, date, settings);
      if Due(active[n], prices, asOf, settings) {
        var row := Closing(active[n], prices, asOf, date, settings);
        UpsertOneMore(old(store.rows), closings, row);
        NamesGrow(closings, row);
        TargetsOfClosing(closings, row, settings);
        target := target[active[n].entityId := 0.0];
        store.Assign(row);
        closedNames := closedNames + [active[n].entityId];
      } else {
        assert closings + [] == closings;
      }
    }
    assert active[..|active|] == active;
  }

  lemma OpeningsStep(entries: seq<Entry>, n: nat, prices: PriceMap, asOf: int, date: string)
    requires n < |entries|
    ensures Openings(entries[..n + 1], prices, asOf, date) == Openings(entries[..n], prices, asOf, date)
      + if entries[n].symbol in prices then [Opening(entries[n], prices, asOf, date)] else []
  {
    assert entries[..n + 1][..n] == entries[..n];
  }

  lemma OpenWritesStep(entries: seq<Entry>, n: nat, prices: PriceMap, asOf: int, date: string, settings: Settings)
    requires n < |entries|
    ensures OpenWrites(entries[..n + 1], prices, asOf, date, settings)
      == OpenWrites(entries[..n], prices, asOf, date, settings)
      + if entries[n].symbol in prices
        then [Opening(entries[n], prices, asOf, date), EntryPrediction(entries[n], asOf, settings)] else []
  {
    assert entries[..n + 1][..n] == entries[..n];
  }

  lemma UpsertTwoMore(rows: Rows, os: Rows, o: Observation, p: Observation)
    ensures UpsertAll(rows, os + [o, p]) == Upsert(Upsert(UpsertAll(rows, os), o), p)
  {
    assert os + [o, p] == os + [o] + [p];
    UpsertOneMore(rows, os, o);
    UpsertOneMore(rows, os + [o], p);
  }

  /** The opening loop: an open row, a target and a prediction for every entry; those without a price are skipped. */
  method OpenPositions(store: InMemoryStore, entries: seq<Entry>, prices: PriceMap, asOf: int, date: string,
                       settings: Settings, closeTarget: map<string, real>, ghost closings: Rows)
    returns (openedNames: seq<string>, target: map<string, real>)
    requires closeTarget == Targets(closings, [], settings)
    modifies store
    ensures store.rows == UpsertAll(old(store.rows), OpenWrites(entries, prices, asOf, date, settings))
    ensures openedNames == Names(Openings(entries, prices, asOf, date))
    ensures target == Targets(closings, Openings(entries, prices, asOf, date), settings)
  {
    openedNames, target := [], closeTarget;
    assert entries[..0] == [];
    for n := 0 to |entries|
      invariant store.rows == UpsertAll(old(store.rows), OpenWrites(entries[..n], prices, asOf, date, settings))
      invariant openedNames == Names(Openings(entries[..n], prices, asOf, date))
      invariant target == Targets(closings, Openings(entries[..n], prices, asOf, date), settings)
    {
      var e := entries[n];
      ghost var openings := Openings(entries[..n], prices, asOf, date);
      ghost var written := OpenWrites(entries[..n], prices, asOf, date, settings);
      OpeningsStep(entries, n, prices, asOf, date);
      OpenWritesStep(entries, n, prices, asOf, date, settings);
      if e.symbol !in prices {
        assert openings + [] == openings && written + [] == written;
        continue;
      }
      var row, prediction := Opening(e, prices, asOf, date), EntryPrediction(e, asOf, settings);
      UpsertTwoMore(old(store.rows), written, row, prediction);
      NamesGrow(openings, row);
      TargetsOfOpening(closings, openings, row, settings);
      target := target[e.symbol := PerName(settings)];
      store.Assign(row);
      store.Assign(prediction);
      openedNames := openedNames + [e.symbol];
    }
    assert entries[..|entries|] == entries;
  }

  /** In the log, the opening writes are the open rows. */
  lemma {:induction false} OpenWritesAreLogged(rows: Rows, before: Rows, written: Rows, entries: seq<Entry>,
                                               prices: PriceMap, asOf: int, date: string, settings: Settings)
    requires Wrote(rows, before, written, asOf) && Written(written + Openings(entries, prices, asOf, date), asOf)
    ensures Wrote(UpsertAll(rows, OpenWrites(entries, prices, asOf, date, settings)), before,
                  written + Openings(entries, prices, asOf, date), asOf)
  {
    if entries == [] {
      assert written + [] == written;
    } else {
      var init, e := entries[..|entries| - 1], entries[|entries| - 1];
      var openings, done := Openings(init, prices, asOf, date), OpenWrites(init, prices, asOf, date, settings);
      WrittenPrefix(written + openings, written + Openings(entries, prices, asOf, date), asOf);
      OpenWritesAreLogged(rows, before, written, init, prices, asOf, date, settings);
      if e.symbol in prices {
        var row, prediction := Opening(e, prices, asOf, date), EntryPrediction(e, asOf, settings);
        assert written + Openings(entries, prices, asOf, date) == written + openings + [row];
        WriteOne(UpsertAll(rows, done), before, written + openings, asOf, row);
        WriteOther(Upsert(UpsertAll(rows, done), row), before, written + openings + [row], asOf, prediction);
        UpsertTwoMore(rows, done, row, prediction);
      } else {
        assert openings + [] == openings && done + [] == done;
      }
    }
  }

  // ----------------------------------------------------- what a pass comes to

  /** The price of each wanted name is the last one in the rows that is not zero. */
  lemma {:induction false} PriceIsLast(rows: Rows, wanted: set<string>, name: string, i: nat)
    requires i < |rows| && IsPriceOf(rows[i], name) && name in wanted
    requires forall j :: i < j < |rows| ==> !IsPriceOf(rows[j], name)
    ensures name in PricesOf(rows, wanted) && PricesOf(rows, wanted)[name] == rows[i].value.close
  {
    if i < |rows| - 1 {
      PriceIsLast(rows[..|rows| - 1], wanted, name, i);
    }
  }

  lemma {:induction false} OnlyPricedNames(rows: Rows, wanted: set<string>, name: string)
    requires name in PricesOf(rows, wanted)
    ensures name in wanted && exists o :: o in rows && IsPriceOf(o, name)
  {
    var init := rows[..|rows| - 1];
    if name in PricesOf(init, wanted) {
      OnlyPricedNames(init, wanted, name);
      var o :| o in init && IsPriceOf(o, name);
      assert o in rows;
    } else {
      assert IsPriceOf(rows[|rows| - 1], name);
    }
  }

  predicate IsPriceOf(o: Observation, name: string) {
    o.entityId == name && o.value.Price? && o.value.close != 0.0
  }

  /** The position has lost at least the stop: no more than the rest of its entry price is left. */
  ghost predicate LostTheStop(o: Observation, prices: PriceMap, stopLoss: real)
    requires IsOpen(o)
  {
    && o.entityId in prices && o.value.entryPrice > 0.0 && stopLoss > 0.0
    && prices[o.entityId] <= Times(1.0 - stopLoss, o.value.entryPrice)
  }

  lemma StoppedIff(o: Observation, prices: PriceMap, settings: Settings)
    requires IsOpen(o)
    ensures Stopped(o, prices, settings) <==> LostTheStop(o, prices, settings.stopLoss)
  {
    if o.entityId in prices && o.value.entryPrice > 0.0 {
      FellIff(prices[o.entityId], o.value.entryPrice, settings.stopLoss);
    }
  }

  /** The close row of a position: at the stop if it has lost that much, otherwise at the horizon. */
  ghost predicate ClosesFor(c: Observation, o: Observation, prices: PriceMap, asOf: int, stopLoss: real)
    requires IsOpen(o)
  {
    && c.dataset == SLEEVE_DATASET && c.entityId == o.entityId && c.eventTime == asOf == c.knowledgeTime
    && c.value == SleeveClosed(if LostTheStop(o, prices, stopLoss) then "stop" else "horizon")
  }

  /** A position is closed exactly if its time is up or it has lost the stop, and for that reason. */
  lemma {:induction false} ClosedIff(active: Rows, prices: PriceMap, asOf: int, date: string, settings: Settings,
                                     o: Observation)
    requires OneRowPerName(active) && AllOpen(active) && o in active
    ensures var closings := Closings(active, prices, asOf, date, settings);
      && (o.entityId in NameSet(closings) <==> asOf >= o.value.exitBy || LostTheStop(o, prices, settings.stopLoss))
      && forall c :: c in closings && c.entityId == o.entityId ==>
           ClosesFor(c, o, prices, asOf, settings.stopLoss)
  {
    ClosingsAre(active, prices, asOf, date, settings);
    StoppedIff(o, prices, settings);
    forall c | c in Closings(active, prices, asOf, date, settings) && c.entityId == o.entityId
      ensures ClosesFor(c, o, prices, asOf, settings.stopLoss)
    {
      var p := ClosingOf(active, prices, asOf, date, settings, c);
      SameNameSameRow(active, o, p);
    }
  }

  lemma {:induction false} ClosingOf(active: Rows, prices: PriceMap, asOf: int, date: string, settings: Settings,
                                     c: Observation) returns (o: Observation)
    requires AllOpen(active) && c in Closings(active, prices, asOf, date, settings)
    ensures o in active && c == Closing(o, prices, asOf, date, settings)
  {
    var init, last := active[..|active| - 1], active[|active| - 1];
    if c in Closings(init, prices, asOf, date, settings) {
      o := ClosingOf(init, prices, asOf, date, settings, c);
    } else {
      o := last;
    }
  }

  lemma SameNameSameRow(active: Rows, o: Observation, p: Observation)
    requires OneRowPerName(active) && o in active && p in active && o.entityId == p.entityId
    ensures o == p
  {
  }

  /** The open row for a cluster: at its price, until the hold is over. */
  ghost predicate OpensFor(o: Observation, c: Cluster, prices: PriceMap, asOf: int, holdDays: int) {
    && c.entityId in prices
    && o.dataset == SLEEVE_DATASET && o.entityId == c.entityId && o.eventTime == asOf == o.knowledgeTime
    && o.value == SleeveOpen(prices[c.entityId], asOf + holdDays * 86400, c.nBuys)
  }

  lemma {:induction false} OpeningOf(entries: seq<Entry>, prices: PriceMap, asOf: int, date: string, o: Observation)
    returns (e: Entry)
    requires o in Openings(entries, prices, asOf, date)
    ensures e in entries && e.symbol in prices && o == Opening(e, prices, asOf, date)
  {
    var init, last := entries[..|entries| - 1], entries[|entries| - 1];
    if o in Openings(init, prices, asOf, date) {
      e := OpeningOf(init, prices, asOf, date, o);
    } else {
      e := last;
    }
  }

  lemma {:induction false} EntryIsOpened(entries: seq<Entry>, prices: PriceMap, asOf: int, date: string, e: Entry)
    requires e in entries && e.symbol in prices
    ensures Opening(e, prices, asOf, date) in Openings(entries, prices, asOf, date)
  {
    var init, last := entries[..|entries| - 1], entries[|entries| - 1];
    if e != last {
      assert e in init;
      EntryIsOpened(init, prices, asOf, date, e);
    }
  }

  /** What a pass opens, over the clusters: fresh names it does not own, with a price, into the slots there are. */
  ghost predicate OpensOnly(openings: Rows, clusters: seq<Cluster>, prices: PriceMap, asOf: int, settings: Settings,
                            live: set<string>)
  {
    forall o :: o in openings ==> OpensOne(o, clusters, prices, asOf, settings, live)
  }

  ghost predicate OpensOne(o: Observation, clusters: seq<Cluster>, prices: PriceMap, asOf: int, settings: Settings,
                           live: set<string>)
  {
    exists c :: c in clusters && IsFresh(c, asOf, 5, live) && OpensFor(o, c, prices, asOf, settings.holdDays)
  }

  /** Every slot is offered to a fresh name that is no older. */
  ghost predicate SlotsAreTaken(offered: seq<Entry>, clusters: seq<Cluster>, asOf: int, car: real, settings: Settings,
                                live: set<string>, c: Cluster)
  {
    && |offered| == settings.maxNames - |live|
    && forall e :: e in offered ==>
         e.knowledgeTime >= c.knowledgeTime && EntersOne(e, clusters, asOf, car, settings.holdDays, 5, live)
  }

  lemma OfferedIsEntered(clusters: seq<Cluster>, asOf: int, car: real, settings: Settings, live: set<string>)
    requires car > 0.0 && settings.maxNames > |live|
    ensures Enters(Offered(clusters, asOf, Some(car), settings, live), clusters, asOf, car, settings.holdDays,
                   settings.maxNames - |live|, 5, live)
  {
    ChosenAreEntered(clusters, asOf, car, settings.holdDays, settings.maxNames - |live|, 5, live);
  }

  lemma EnteredAreOpened(entries: seq<Entry>, clusters: seq<Cluster>, prices: PriceMap, asOf: int, date: string,
                         car: real, settings: Settings, slots: int, live: set<string>)
    requires Enters(entries, clusters, asOf, car, settings.holdDays, slots, 5, live)
    ensures OpensOnly(Openings(entries, prices, asOf, date), clusters, prices, asOf, settings, live)
  {
    forall o | o in Openings(entries, prices, asOf, date)
      ensures OpensOne(o, clusters, prices, asOf, settings, live)
    {
      var e := OpeningOf(entries, prices, asOf, date, o);
      assert EntersOne(e, clusters, asOf, car, settings.holdDays, 5, live);
      var d :| d in clusters && IsFresh(d, asOf, 5, live) && IsEntry(e, d, asOf, settings.holdDays, car);
      assert OpensFor(o, d, prices, asOf, settings.holdDays);
    }
  }

  /** The cluster's name has been opened. */
  ghost predicate IsOpened(openings: Rows, c: Cluster, prices: PriceMap, asOf: int, holdDays: int) {
    exists o :: o in openings && OpensFor(o, c, prices, asOf, holdDays)
  }

  lemma EntryIntoIsOpened(entries: seq<Entry>, prices: PriceMap, asOf: int, date: string, car: real,
                          settings: Settings, c: Cluster, e: Entry)
    requires e in entries && IsEntry(e, c, asOf, settings.holdDays, car) && c.entityId in prices
    ensures IsOpened(Openings(entries, prices, asOf, date), c, prices, asOf, settings.holdDays)
  {
    EntryIsOpened(entries, prices, asOf, date, e);
    assert OpensFor(Opening(e, prices, asOf, date), c, prices, asOf, settings.holdDays);
  }

  /**
   * With the gate open and a slot free, a pass opens fresh, priced names only, and passes over none of them unless
   * every slot has been offered to one no older.
   */
  lemma PassOpens(clusters: seq<Cluster>, prices: PriceMap, asOf: int, date: string, car: real, settings: Settings,
                  live: set<string>, c: Cluster)
    requires car > 0.0 && settings.maxNames > |live|
    ensures var offered := Offered(clusters, asOf, Some(car), settings, live);
      var openings := Openings(offered, prices, asOf, date);
      && OpensOnly(openings, clusters, prices, asOf, settings, live)
      && (c in clusters && IsFresh(c, asOf, 5, live) && c.entityId in prices ==>
            || IsOpened(openings, c, prices, asOf, settings.holdDays)
            || SlotsAreTaken(offered, clusters, asOf, car, settings, live, c))
  {
    var offered := Offered(clusters, asOf, Some(car), settings, live);
    OfferedIsEntered(clusters, asOf, car, settings, live);
    EnteredAreOpened(offered, clusters, prices, asOf, date, car, settings, settings.maxNames - |live|, live);
    if c in clusters && IsFresh(c, asOf, 5, live) && c.entityId in prices {
      if e :| e in offered && IsEntry(e, c, asOf, settings.holdDays, car) {
        EntryIntoIsOpened(offered, prices, asOf, date, car, settings, c, e);
      }
    }
  }

  /** Without a free slot, or with the gate shut, a pass opens nothing. */
  lemma NothingToOpen(clusters: seq<Cluster>, prices: PriceMap, asOf: int, date: string, car: Option<real>,
                      settings: Settings, live: set<string>)
    requires settings.maxNames <= |live| || car.None? || car.value <= 0.0
    ensures Openings(Offered(clusters, asOf, car, settings, live), prices, asOf, date) == []
  {
  }

  /** Opened names get equal parts that together are the budget; closed ones that are not reopened get nothing. */
  lemma TargetsAre(closings: Rows, openings: Rows, settings: Settings)
    requires settings.maxNames >= 1
    ensures var target := Targets(closings, openings, settings);
      && target.Keys == NameSet(closings) + NameSet(openings)
      && (forall s :: s in NameSet(openings) ==> Times(settings.maxNames as real, target[s]) == settings.budget)
      && (forall s :: s in NameSet(closings) - NameSet(openings) ==> target[s] == 0.0)
  {
    EqualParts(settings.budget, settings.maxNames as real);
  }

  lemma EqualParts(budget: real, n: real)
    requires n > 0.0
    ensures Times(n, budget / n) == budget
  {
  }

  /** A name opened is predicted to rise with ten times its expected drift, as far as that is a probability. */
  lemma PredictionIs(e: Entry, asOf: int, settings: Settings)
    ensures var o := EntryPrediction(e, asOf, settings);
      && o.dataset == PREDICTION_DATASET && o.entityId == e.symbol && o.eventTime == asOf == o.knowledgeTime
      && o.value.Prediction? && 0.0 <= o.value.probability <= 1.0
      && (0.0 <= e.expectedCar * 10.0 <= 1.0 ==> o.value.probability == e.expectedCar * 10.0)
      && (e.expectedCar * 10.0 > 1.0 ==> o.value.probability == 1.0)
      && (e.expectedCar < 0.0 ==> o.value.probability == 0.0)
  {
  }

  /** And the prediction is written with the open row. */
  lemma {:induction false} OpeningsArePredicted(entries: seq<Entry>, prices: PriceMap, asOf: int, date: string,
                                                settings: Settings, e: Entry)
    requires e in entries && e.symbol in prices
    ensures var written := OpenWrites(entries, prices, asOf, date, settings);
      Opening(e, prices, asOf, date) in written && EntryPrediction(e, asOf, settings) in written
  {
    var init, last := entries[..|entries| - 1], entries[|entries| - 1];
    if e != last {
      assert e in init;
      OpeningsArePredicted(init, prices, asOf, date, settings, e);
    } else {
      var two := [Opening(e, prices, asOf, date), EntryPrediction(e, asOf, settings)];
      assert two[0] in two && two[1] in two;
    }
  }
}
