/** The sleeve's state lives in the bitemporal log: what it owns is what it last wrote. */
module SleeveLog {
  import opened Prelude
  import opened Ordering
  import opened Bitemporal
  import opened BitemporalLaws
  import SqlStores

  const SLEEVE_DATASET := "sleeve.insider_position"

  predicate IsSleeve(o: Observation) {
    o.dataset == SLEEVE_DATASET
  }

  predicate IsOpen(o: Observation) {
    o.value.SleeveOpen?
  }

  /** The state rows in the order they were written. */
  function Log(rows: Rows): Rows {
    Filter(rows, IsSleeve)
  }

  function StateRow(symbol: string, asOf: int, ref: string, value: Value): Observation {
    Observation("sleeve", SLEEVE_DATASET, "equity", symbol, Some(ref), asOf, asOf, 0, value, Random(0))
      .WithDeterministicId()
  }

  /** date is the calendar date of asOf, which only ever becomes part of the discriminator. */
  function OpenRow(symbol: string, asOf: int, date: string, entryPrice: real, exitBy: int, nBuys: int): Observation {
    StateRow(symbol, asOf, "open:" + date, SleeveOpen(entryPrice, exitBy, nBuys))
  }

  function CloseRow(symbol: string, asOf: int, date: string, reason: string): Observation {
    StateRow(symbol, asOf, "close:" + reason + ":" + date, SleeveClosed(reason))
  }

  // -------------------------------------------------------------- reading it back

  /** One step over the records: a state that is not older than the kept one of its name replaces it. */
  function NewestStep(best: Rows, o: Observation): Rows {
    if best == [] then [o]
    else if best[0].entityId == o.entityId then
      (if o.eventTime >= best[0].eventTime then [o] else [best[0]]) + best[1..]
    else [best[0]] + NewestStep(best[1..], o)
  }

  /** The newest state of each name. */
  function LatestBySymbol(rows: Rows): Rows {
    if rows == [] then [] else NewestStep(LatestBySymbol(rows[..|rows| - 1]), rows[|rows| - 1])
  }

  lemma {:induction false} NewestStepAt(best: Rows, o: Observation, i: nat)
    requires i <= |best| && forall j :: 0 <= j < i ==> best[j].entityId != o.entityId
    ensures i == |best| ==> NewestStep(best, o) == best + [o]
    ensures i < |best| && best[i].entityId == o.entityId ==>
      NewestStep(best, o) == if o.eventTime >= best[i].eventTime then best[i := o] else best
  {
    if i > 0 {
      assert best == [best[0]] + best[1..];
      NewestStepAt(best[1..], o, i - 1);
    }
  }

  lemma LatestGrows(rows: Rows, n: nat)
    requires n < |rows|
    ensures LatestBySymbol(rows[..n + 1]) == NewestStep(LatestBySymbol(rows[..n]), rows[n])
  {
    assert rows[..n + 1][..n] == rows[..n];
  }

  /** The dictionary filled record by record. */
  method FillLatest(rows: Rows) returns (out: Rows)
    ensures out == LatestBySymbol(rows)
  {
    out := [];
    for n := 0 to |rows|
      invariant out == LatestBySymbol(rows[..n])
    {
      LatestGrows(rows, n);
      var o := rows[n];
      var i := 0;
      while i < |out| && out[i].entityId != o.entityId
        invariant i <= |out| && forall j :: 0 <= j < i ==> out[j].entityId != o.entityId
      {
        i := i + 1;
      }
      NewestStepAt(out, o, i);
      if i == |out| {
        out := out + [o];
      } else if o.eventTime >= out[i].eventTime {
        out := out[i := o];
      }
    }
    assert rows[..|rows|] == rows;
  }

  /** The last row of a name. */
  function LastOf(rows: Rows, symbol: string): (last: Option<Observation>)
    ensures last.Some? ==> last.value in rows && last.value.entityId == symbol
  {
    if rows == [] then None
    else if rows[|rows| - 1].entityId == symbol then Some(rows[|rows| - 1])
    else LastOf(rows[..|rows| - 1], symbol)
  }

  lemma {:induction false} LastOfIs(rows: Rows, symbol: string, i: nat)
    requires i < |rows| && rows[i].entityId == symbol
    requires forall j :: i < j < |rows| ==> rows[j].entityId != symbol
    ensures LastOf(rows, symbol) == Some(rows[i])
  {
    if i < |rows| - 1 {
      LastOfIs(rows[..|rows| - 1], symbol, i);
    }
  }

  ghost predicate InTimeOrder(rows: Rows) {
    forall i, j :: 0 <= i < j < |rows| ==> rows[i].eventTime <= rows[j].eventTime
  }

  ghost predicate OneRowPerName(rows: Rows) {
    forall i, j :: 0 <= i < j < |rows| ==> rows[i].entityId != rows[j].entityId
  }

  lemma {:induction false} NewestStepElements(best: Rows, o: Observation)
    requires OneRowPerName(best)
    requires forall p :: p in best && p.entityId == o.entityId ==> p.eventTime <= o.eventTime
    ensures OneRowPerName(NewestStep(best, o))
    ensures forall p :: p in NewestStep(best, o) <==> p == o || (p in best && p.entityId != o.entityId)
  {
    if best != [] {
      assert best == [best[0]] + best[1..];
      if best[0].entityId != o.entityId {
        NewestStepElements(best[1..], o);
        var rest := NewestStep(best[1..], o);
        forall i | 0 <= i < |rest| ensures rest[i].entityId != best[0].entityId {
          assert rest[i] in rest;
        }
      } else {
        forall p | p in best[1..] ensures p.entityId != o.entityId {
        }
      }
    }
  }

  /** Over records in time order the newest state of a name is its last row. */
  lemma {:induction false} LatestIsLast(rows: Rows)
    requires InTimeOrder(rows)
    ensures OneRowPerName(LatestBySymbol(rows))
    ensures forall o :: o in LatestBySymbol(rows) <==> LastOf(rows, o.entityId) == Some(o)
  {
    if rows != [] {
      var init, last := rows[..|rows| - 1], rows[|rows| - 1];
      LatestIsLast(init);
      forall p | p in LatestBySymbol(init) ensures p.eventTime <= last.eventTime {
        assert p in init;
      }
      NewestStepElements(LatestBySymbol(init), last);
    }
  }

  function OfName(symbol: string): Observation -> bool {
    (o: Observation) => o.entityId == symbol
  }

  lemma {:induction false} LastOfIsLastInFilter(rows: Rows, symbol: string)
    ensures var own := Filter(rows, OfName(symbol));
      LastOf(rows, symbol) == if own == [] then None else Some(own[|own| - 1])
  {
    if rows != [] {
      LastOfIsLastInFilter(rows[..|rows| - 1], symbol);
    }
  }

  /** A sleeve log up to t: every row known when it was written, in the order of writing, no two alike. */
  ghost predicate Orderly(log: Rows, t: int) {
    && InTimeOrder(log) && DistinctKeys(log)
    && forall o :: o in log ==> StateRowOf(o, t)
  }

  ghost predicate StateRowOf(o: Observation, t: int) {
    o.source == "sleeve" && IsSleeve(o) && o.revision == 0 && o.knowledgeTime == o.eventTime <= t
  }

  lemma {:induction false} CollapseOfDistinct(rows: Rows)
    requires DistinctKeys(rows)
    ensures Collapse(rows) == rows
  {
    if rows != [] {
      var init, last := rows[..|rows| - 1], rows[|rows| - 1];
      CollapseOfDistinct(init);
      SupersedeAt(init, last, |init|);
    }
  }

  /** At any time from t on, a query for the sleeve's rows returns its log, sorted. */
  lemma QueryReturnsTheLog(rows: Rows, t: int, now: int)
    requires Orderly(Log(rows), t) && t <= now
    ensures AsOf(rows, now, OfDataset(SLEEVE_DATASET)) == SortObservations(Log(rows))
  {
    FilterElements(rows, IsSleeve);
    FilterCongruence(rows, SeenBy(now, OfDataset(SLEEVE_DATASET)), IsSleeve);
    CollapseOfDistinct(Log(rows));
  }

  lemma StateRowOrder(a: Observation, b: Observation, t: int)
    requires StateRowOf(a, t) && StateRowOf(b, t)
    ensures a.eventTime < b.eventTime ==> !Le(b.SortKey(), a.SortKey())
    ensures Le(a.SortKey(), b.SortKey()) ==> a.eventTime <= b.eventTime
    ensures a.entityId == b.entityId && a.eventTime <= b.eventTime ==> Le(a.SortKey(), b.SortKey())
  {
    Total(a.SortKey(), b.SortKey());
    if a.entityId == b.entityId && a.eventTime == b.eventTime {
      assert a.SortKey() == b.SortKey();
    } else {
      assert a.SortKey()[0] == Number(a.eventTime) && b.SortKey()[0] == Number(b.eventTime);
      NumberOrder(a.eventTime, b.eventTime);
      NumberOrder(b.eventTime, a.eventTime);
    }
  }

  /** State rows, sorted, are in time order. */
  lemma SortedIsInTimeOrder(rows: Rows, t: int)
    requires forall o :: o in rows ==> StateRowOf(o, t)
    ensures InTimeOrder(SortObservations(rows))
    ensures forall o :: o in SortObservations(rows) <==> o in rows
  {
    var key, sorted := (o: Observation) => o.SortKey(), SortObservations(rows);
    SortSorts(rows, key);
    SortKeepsElements(rows, key);
    forall i, j | 0 <= i < j < |sorted| ensures sorted[i].eventTime <= sorted[j].eventTime {
      assert Le(key(sorted[i]), key(sorted[j]));
      StateRowOrder(sorted[i], sorted[j], t);
    }
  }

  /** Sorting the log keeps every name's rows in the order they were written. */
  lemma SortedLogKeepsNames(log: Rows, t: int, symbol: string)
    requires Orderly(log, t)
    ensures InTimeOrder(SortObservations(log))
    ensures LastOf(SortObservations(log), symbol) == LastOf(log, symbol)
  {
    var key := (o: Observation) => o.SortKey();
    var sorted := SortObservations(log);
    SortedIsInTimeOrder(log, t);
    forall i, j | 0 <= i < j < |log| && OfName(symbol)(log[i]) && OfName(symbol)(log[j])
      ensures Le(key(log[i]), key(log[j]))
    {
      assert log[i] in log && log[j] in log;
      StateRowOrder(log[i], log[j], t);
    }
    SortIsStable(log, key, OfName(symbol));
    LastOfIsLastInFilter(log, symbol);
    LastOfIsLastInFilter(sorted, symbol);
  }

  /** What the sleeve owns: the names whose newest state is open, with that state. */
  function Active(rows: Rows, now: int): Rows {
    Filter(LatestBySymbol(AsOf(rows, now, OfDataset(SLEEVE_DATASET))), IsOpen)
  }

  /** The name's last row in the log is an open one. */
  predicate Owned(log: Rows, symbol: string) {
    var last := LastOf(log, symbol);
    last.Some? && IsOpen(last.value)
  }

  /** Read back at any later time, the active positions are the last rows of the owned names, each once. */
  lemma ActiveIsOwned(rows: Rows, t: int, now: int)
    requires Orderly(Log(rows), t) && t <= now
    ensures OneRowPerName(Active(rows, now))
    ensures forall o :: o in Active(rows, now) <==> LastOf(Log(rows), o.entityId) == Some(o) && IsOpen(o)
  {
    var log := Log(rows);
    var sorted := SortObservations(log);
    QueryReturnsTheLog(rows, t, now);
    SortedLogKeepsNames(log, t, "");
    LatestIsLast(sorted);
    FilterElements(LatestBySymbol(sorted), IsOpen);
    OnePerNameFilter(LatestBySymbol(sorted));
    forall o: Observation ensures LastOf(sorted, o.entityId) == LastOf(log, o.entityId) {
      SortedLogKeepsNames(log, t, o.entityId);
    }
  }

  lemma {:induction false} OnePerNameFilter(rows: Rows)
    requires OneRowPerName(rows)
    ensures OneRowPerName(Filter(rows, IsOpen))
  {
    if rows != [] {
      var init, last := rows[..|rows| - 1], rows[|rows| - 1];
      OnePerNameFilter(init);
      FilterElements(init, IsOpen);
      var kept := Filter(init, IsOpen);
      forall i | 0 <= i < |kept| ensures kept[i].entityId != last.entityId {
        assert kept[i] in kept;
        var j :| 0 <= j < |init| && init[j] == kept[i];
        assert rows[j].entityId != rows[|rows| - 1].entityId;
      }
    }
  }

  // ------------------------------------------------- rows in another order

  /** What the sleeve reads back from the rows a store hands out, in the order it does. */
  function ReadBack(fetched: Rows): Rows {
    Filter(LatestBySymbol(SortObservations(Collapse(fetched))), IsOpen)
  }

  /** The positions read back are the last rows of the owned names. */
  ghost predicate ReadsOwned(fetched: Rows, log: Rows) {
    forall o :: o in ReadBack(fetched) <==> LastOf(log, o.entityId) == Some(o) && IsOpen(o)
  }

  /** The log's rows, in whatever order. */
  ghost predicate AnyOrder(fetched: Rows, log: Rows) {
    multiset(fetched) == multiset(log)
  }

  /**
   * A name's last row, and another of its rows from the same pass, one of them open: it was closed and
   * reopened at once.
   */
  ghost predicate ReopenedLast(log: Rows, last: Observation, other: Observation) {
    && LastOf(log, last.entityId) == Some(last)
    && other in log && other != last && other.entityId == last.entityId && other.eventTime == last.eventTime
    && (IsOpen(last) || IsOpen(other))
  }

  /** Whatever the order, the state read back for a name is its last row after sorting. */
  lemma ReadBackIs(fetched: Rows, log: Rows, t: int)
    requires Orderly(log, t) && AnyOrder(fetched, log)
    ensures InTimeOrder(SortObservations(fetched))
    ensures forall o :: o in SortObservations(fetched) <==> o in log
    ensures forall o ::
      o in ReadBack(fetched) <==> LastOf(SortObservations(fetched), o.entityId) == Some(o) && IsOpen(o)
  {
    var sorted := SortObservations(fetched);
    PermutationKeepsKeys(log, fetched);
    CollapseOfDistinct(fetched);
    SortedIsInTimeOrder(fetched, t);
    LatestIsLast(sorted);
    FilterElements(LatestBySymbol(sorted), IsOpen);
  }

  lemma {:induction false} LastOfIsNewest(rows: Rows, o: Observation)
    requires InTimeOrder(rows) && o in rows
    ensures LastOf(rows, o.entityId).Some? && o.eventTime <= LastOf(rows, o.entityId).value.eventTime
  {
    var init, last := rows[..|rows| - 1], rows[|rows| - 1];
    if last.entityId != o.entityId {
      LastOfIsNewest(init, o);
    }
  }

  /** In any order the last row of a name is from the pass that wrote its last row. */
  lemma SamePass(fetched: Rows, log: Rows, t: int, symbol: string)
    requires Orderly(log, t) && AnyOrder(fetched, log)
    ensures var last, read := LastOf(log, symbol), LastOf(SortObservations(fetched), symbol);
      && (last.Some? <==> read.Some?)
      && (last.Some? ==> read.value in log && read.value.eventTime == last.value.eventTime)
  {
    var last, read := LastOf(log, symbol), LastOf(SortObservations(fetched), symbol);
    ReadBackIs(fetched, log, t);
    if last.Some? {
      LastOfIsNewest(SortObservations(fetched), last.value);
    }
    if read.Some? {
      LastOfIsNewest(log, read.value);
    }
  }

  lemma UnreopenedReadsOwned(fetched: Rows, log: Rows, t: int)
    requires Orderly(log, t) && AnyOrder(fetched, log)
    requires forall last, other :: !ReopenedLast(log, last, other)
    ensures ReadsOwned(fetched, log)
  {
    ReadBackIs(fetched, log, t);
    forall o ensures o in ReadBack(fetched) <==> LastOf(log, o.entityId) == Some(o) && IsOpen(o) {
      SamePass(fetched, log, t, o.entityId);
      var last, read := LastOf(log, o.entityId), LastOf(SortObservations(fetched), o.entityId);
      if last.Some? && read != last {
        assert !ReopenedLast(log, last.value, read.value);
      }
    }
  }

  function RemoveAt(log: Rows, k: nat): (rest: Rows)
    requires k < |log|
    ensures |rest| == |log| - 1 && forall i :: 0 <= i < |rest| ==> rest[i] == log[if i < k then i else i + 1]
  {
    log[..k] + log[k + 1..]
  }

  lemma RemovedRowIsLast(log: Rows, k: nat)
    requires k < |log|
    ensures AnyOrder(RemoveAt(log, k) + [log[k]], log)
  {
    assert log == log[..k] + [log[k]] + log[k + 1..];
  }

  /** The log without one of its rows. */
  lemma Without(log: Rows, other: Observation) returns (rest: Rows)
    requires other in log && InTimeOrder(log)
    ensures AnyOrder(rest + [other], log) && InTimeOrder(rest)
  {
    var k :| 0 <= k < |log| && log[k] == other;
    rest := RemoveAt(log, k);
    RemovedRowIsLast(log, k);
  }

  lemma NamesAreInOrder(rest: Rows, log: Rows, t: int, other: Observation)
    requires Orderly(log, t) && AnyOrder(rest + [other], log) && InTimeOrder(rest)
    requires forall o :: o in log && o.entityId == other.entityId ==> o.eventTime <= other.eventTime
    ensures InOrder(rest + [other], (o: Observation) => o.SortKey(), OfName(other.entityId))
  {
    var fetched := rest + [other];
    SameElements(fetched, log);
    forall i, j | 0 <= i < j < |fetched| && OfName(other.entityId)(fetched[i]) && OfName(other.entityId)(fetched[j])
      ensures Le(fetched[i].SortKey(), fetched[j].SortKey())
    {
      assert fetched[i] in log && fetched[j] in log;
      StateRowOrder(fetched[i], fetched[j], t);
    }
  }

  /** With the other row of its last pass handed out last, a reopened name reads back wrongly. */
  lemma ReopenedReadsWrong(log: Rows, t: int, last: Observation, other: Observation) returns (fetched: Rows)
    requires Orderly(log, t) && ReopenedLast(log, last, other)
    ensures AnyOrder(fetched, log) && !ReadsOwned(fetched, log)
  {
    var rest := Without(log, other);
    fetched := rest + [other];
    forall o | o in log && o.entityId == other.entityId ensures o.eventTime <= other.eventTime {
      LastOfIsNewest(log, o);
    }
    NamesAreInOrder(rest, log, t, other);
    SortIsStable(fetched, (o: Observation) => o.SortKey(), OfName(other.entityId));
    LastOfIsLastInFilter(fetched, other.entityId);
    LastOfIsLastInFilter(SortObservations(fetched), other.entityId);
    assert LastOf(SortObservations(fetched), other.entityId) == Some(other);
    ReadBackIs(fetched, log, t);
    assert other in ReadBack(fetched) <==> IsOpen(other);
    assert last !in ReadBack(fetched);
  }

  /**
   * On a store that may hand out rows in any order, the sleeve reads back what it owns exactly if no name was both
   * closed and reopened in the pass that wrote its last row.
   */
  lemma AnyOrderReadsOwnedIff(log: Rows, t: int)
    requires Orderly(log, t)
    ensures (forall fetched :: AnyOrder(fetched, log) ==> ReadsOwned(fetched, log))
      <==> (forall last, other :: !ReopenedLast(log, last, other))
  {
    if last, other :| ReopenedLast(log, last, other) {
      var fetched := ReopenedReadsWrong(log, t, last, other);
    } else {
      forall fetched | AnyOrder(fetched, log) ensures ReadsOwned(fetched, log) {
        UnreopenedReadsOwned(fetched, log, t);
      }
    }
  }

  /** So it is for the SQL store: over all result sets of its query, at any time from t on. */
  lemma SqlReadsOwnedIff(table: SqlStores.Table, rows: Rows, t: int, now: int)
    requires WellFormed(rows) && SqlStores.Mirrors(table, rows) && Orderly(Log(rows), t) && t <= now
    ensures (forall fetched :: SqlStores.ResultSet(fetched, table, now, None, OfDataset(SLEEVE_DATASET)) ==>
              ReadsOwned(fetched, Log(rows)))
      <==> (forall last, other :: !ReopenedLast(Log(rows), last, other))
  {
    var q := OfDataset(SLEEVE_DATASET);
    FilterElements(rows, IsSleeve);
    FilterCongruence(rows, SqlStores.SelectedBy(now, None, q), IsSleeve);
    forall fetched ensures SqlStores.ResultSet(fetched, table, now, None, q) <==> AnyOrder(fetched, Log(rows)) {
      SqlStores.ResultSetsAreOrders(table, rows, fetched, now, None, q);
    }
    AnyOrderReadsOwnedIff(Log(rows), t);
  }

  // --------------------------------------------------------------- writing to it

  lemma {:induction false} FilterOfUpdate(rows: Rows, i: nat, o: Observation, p: Observation -> bool)
    requires i < |rows| && !p(rows[i]) && !p(o)
    ensures Filter(rows[i := o], p) == Filter(rows, p)
  {
    var init, last := rows[..|rows| - 1], rows[|rows| - 1];
    if i < |rows| - 1 {
      FilterOfUpdate(init, i, o, p);
      assert rows[i := o][..|rows| - 1] == init[i := o];
    } else {
      assert rows[i := o][..|rows| - 1] == init;
    }
  }

  lemma FindId(rows: Rows, id: Id) returns (i: nat)
    ensures i <= |rows| && (forall j :: 0 <= j < i ==> rows[j].id != id)
    ensures i < |rows| ==> rows[i].id == id
  {
    i := 0;
    while i < |rows| && rows[i].id != id
      invariant i <= |rows| && forall j :: 0 <= j < i ==> rows[j].id != id
    {
      i := i + 1;
    }
  }

  /** Rows of other datasets leave the log alone. */
  lemma OtherRowsLeaveTheLog(rows: Rows, o: Observation)
    requires WellFormed(rows) && o.id == o.DeterministicId() && !IsSleeve(o)
    ensures Log(Upsert(rows, o)) == Log(rows)
  {
    var i := FindId(rows, o.id);
    UpsertAt(rows, o, i);
    if i < |rows| {
      assert rows[i] in rows;
      FilterOfUpdate(rows, i, o, IsSleeve);
    } else {
      FilterOfAppend(rows, o, IsSleeve);
    }
  }

  /** A state row under a new identifier is appended to the log. */
  lemma NewRowExtendsTheLog(rows: Rows, o: Observation)
    requires WellFormed(rows) && o.id == o.DeterministicId() && IsSleeve(o)
    requires forall p :: p in Log(rows) ==> p.id != o.id
    ensures Log(Upsert(rows, o)) == Log(rows) + [o]
  {
    FilterElements(rows, IsSleeve);
    forall j | 0 <= j < |rows| ensures rows[j].id != o.id {
      assert rows[j] in rows && rows[j].id == rows[j].DeterministicId();
    }
    UpsertAt(rows, o, |rows|);
    FilterOfAppend(rows, o, IsSleeve);
  }
}
