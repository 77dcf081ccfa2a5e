/**
 * The SQL-backed store: a table keyed by identifier whose rows come back in no particular order,
 * sharing revision collapsing and sorting with the in-memory store, plus an event-time floor.
 */
module SqlStores {
  import opened Prelude
  import opened Ordering
  import opened Bitemporal
  import opened BitemporalLaws

  type Table = map<Id, Observation>

  /** Each row sits under its own identifier. */
  ghost predicate Keyed(table: Table) {
    forall id :: id in table ==> table[id].id == id
  }

  /** The table holds exactly the rows of an in-memory store. */
  ghost predicate Mirrors(table: Table, rows: Rows) {
    && Keyed(table)
    && DistinctIds(rows)
    && forall o :: o in rows <==> o.id in table && table[o.id] == o
  }

  /** The WHERE clauses of a query. */
  predicate Selected(o: Observation, k: int, since: Option<int>, q: Query) {
    Seen(o, k, q) && (since == None || o.eventTime >= since.value)
  }

  /** A result set: the selected rows, each once, in whatever order the database yields them. */
  ghost predicate ResultSet(rows: Rows, table: Table, k: int, since: Option<int>, q: Query) {
    && DistinctIds(rows)
    && forall o :: o in rows <==> o.id in table && table[o.id] == o && Selected(o, k, since, q)
  }

  function Merged(table: Table, os: seq<Observation>): Table {
    if os == [] then table
    else
      var o := os[|os| - 1];
      Merged(table, os[..|os| - 1])[o.id := o]
  }

  lemma {:induction false} MergedIds(table: Table, os: seq<Observation>, id: Id)
    ensures id in Merged(table, os) <==> id in table || exists i :: 0 <= i < |os| && os[i].id == id
  {
    if os != [] {
      MergedIds(table, os[..|os| - 1], id);
      if i :| 0 <= i < |os| && os[i].id == id {
        assert i < |os| - 1 ==> os[..|os| - 1][i].id == id;
      }
    }
  }

  class SqlStore {
    var table: Table

    constructor ()
      ensures table == map[]
    {
      table := map[];
    }

    /** Merges row by row: insert or replace. */
    method UpsertMany(os: seq<Observation>)
      modifies this
      ensures table == Merged(old(table), os)
    {
      for n := 0 to |os|
        invariant table == Merged(old(table), os[..n])
      {
        assert os[..n + 1][..n] == os[..n];
        table := table[os[n].id := os[n]];
      }
      assert os[..|os|] == os;
    }

    /** Plain insertion: a primary key that exists already, in the table or in the batch, fails the whole batch. */
    method AddMany(os: seq<Observation>) returns (ok: bool)
      modifies this
      ensures ok <==> DistinctIds(os) && forall o :: o in os ==> o.id !in old(table)
      ensures table == if ok then Merged(old(table), os) else old(table)
    {
      var staged := table;
      for n := 0 to |os|
        invariant table == old(table) && staged == Merged(table, os[..n])
        invariant DistinctIds(os[..n]) && forall i :: 0 <= i < n ==> os[i].id !in table
      {
        MergedIds(table, os[..n], os[n].id);
        if os[n].id in staged {
          return false;
        }
        assert os[..n + 1][..n] == os[..n];
        staged := staged[os[n].id := os[n]];
      }
      assert os[..|os|] == os;
      table := staged;
      ok := true;
    }

    /** Runs the query; the database may yield the selected rows in any order. */
    method Query(k: int, since: Option<int>, q: Query) returns (result: Rows)
      requires Keyed(table)
      ensures exists rows :: ResultSet(rows, table, k, since, q) && result == SortObservations(Collapse(rows))
    {
      var fetched: Rows := [];
      var todo := set id | id in table && Selected(table[id], k, since, q);
      while todo != {}
        invariant forall id :: id in todo ==> id in table && Selected(table[id], k, since, q)
        invariant DistinctIds(fetched)
        invariant forall o ::
          o in fetched <==> o.id in table && table[o.id] == o && Selected(o, k, since, q) && o.id !in todo
      {
        var id :| id in todo;
        fetched := fetched + [table[id]];
        todo := todo - {id};
      }
      assert ResultSet(fetched, table, k, since, q);
      var best := CollapseLatestRevisions(fetched);
      result := SortObservations(best);
    }
  }

  // ------------------------------------------------- agreement with the oracle

  /** The same upserts keep the table and the in-memory store in agreement. */
  lemma {:induction false} UpsertsKeepAgreement(table: Table, rows: Rows, os: seq<Observation>)
    requires Mirrors(table, rows)
    ensures Mirrors(Merged(table, os), UpsertAll(rows, os))
  {
    if os != [] {
      var init, o := os[..|os| - 1], os[|os| - 1];
      UpsertsKeepAgreement(table, rows, init);
      UpsertElements(UpsertAll(rows, init), o);
    }
  }

  /**
   * After the same upserts, a SQL query returns, whatever order the database yields rows in, exactly
   * the rows of the in-memory query, restricted to the event-time floor if one is given.
   */
  lemma SqlAgreesWithOracle(table: Table, rows: Rows, fetched: Rows, k: int, since: Option<int>, q: Query)
    requires WellFormed(rows) && Mirrors(table, rows) && ResultSet(fetched, table, k, since, q)
    ensures forall o :: o in SortObservations(Collapse(fetched)) <==>
      o in AsOf(rows, k, q) && (since == None || o.eventTime >= since.value)
  {
    AsOfIsLatestKnown(rows, k, q);
    DistinctIdsAreVersioned(fetched);
    CollapseKeepsLatest(fetched);
    SortKeepsDistinctKeys(Collapse(fetched));
    forall o ensures Latest(fetched, o) <==>
      LatestKnown(rows, k, q, o) && (since == None || o.eventTime >= since.value)
    {
      assert forall p :: p in fetched <==> p in rows && Selected(p, k, since, q);
    }
  }

  function SelectedBy(k: int, since: Option<int>, q: Query): Observation -> bool {
    (o: Observation) => Selected(o, k, since, q)
  }

  /** The result sets of a query are the rows of the in-memory store that it selects, in every order. */
  lemma ResultSetsAreOrders(table: Table, rows: Rows, fetched: Rows, k: int, since: Option<int>, q: Query)
    requires WellFormed(rows) && Mirrors(table, rows)
    ensures ResultSet(fetched, table, k, since, q)
      <==> multiset(fetched) == multiset(Filter(rows, SelectedBy(k, since, q)))
  {
    var seen := Filter(rows, SelectedBy(k, since, q));
    FilterElements(rows, SelectedBy(k, since, q));
    WellFormedIsVersioned(rows, SelectedBy(k, since, q));
    if ResultSet(fetched, table, k, since, q) {
      DistinctIdsDoNotRepeat(fetched);
      DistinctIdsDoNotRepeat(seen);
      SameWithoutRepeats(fetched, seen);
    }
    if multiset(fetched) == multiset(seen) {
      PermutationKeepsIds(seen, fetched);
      SameElements(fetched, seen);
    }
  }

  lemma DistinctIdsDoNotRepeat(rows: Rows)
    requires DistinctIds(rows)
    ensures NoRepeats(rows)
  {
    forall i, j | 0 <= i < j < |rows| ensures rows[i] != rows[j] {
      assert rows[i].id != rows[j].id;
    }
  }

  /** The event-time floor of a query, if it has one. */
  function NotBefore(since: Option<int>): Observation -> bool {
    (o: Observation) => since == None || o.eventTime >= since.value
  }

  /** Whatever order the database yields rows in, the query returns the in-memory list, down to the floor. */
  ghost predicate ReadsIdentically(table: Table, rows: Rows, k: int, since: Option<int>, q: Query) {
    forall fetched :: ResultSet(fetched, table, k, since, q) ==>
      SortObservations(Collapse(fetched)) == Filter(AsOf(rows, k, q), NotBefore(since))
  }

  /** No two facts above the floor tie in the sort key with the latest versions the query can see. */
  ghost predicate UntiedSince(rows: Rows, k: int, since: Option<int>, q: Query) {
    forall o, p ::
      (LatestKnown(rows, k, q, o) && LatestKnown(rows, k, q, p) && NotBefore(since)(o) && NotBefore(since)(p)
       && o.SortKey() == p.SortKey()) ==> o == p
  }

  /** What a store reads that has ingested just the rows a query sees. */
  lemma SeenReadsAlone(seen: Rows, k: int, q: Query)
    requires WellFormed(seen) && forall o :: o in seen ==> Seen(o, k, q)
    ensures AsOf(UpsertAll([], seen), k, q) == SortObservations(Collapse(seen))
  {
    IngestedRows(seen);
    FilterOfAll(seen, SeenBy(k, q));
  }

  lemma OrderReadsLike(seen: Rows, fetched: Rows, k: int, q: Query)
    requires WellFormed(seen) && forall o :: o in seen ==> Seen(o, k, q)
    requires multiset(fetched) == multiset(seen)
    ensures ReadsBackLike(seen, fetched, k, q)
      <==> SortObservations(Collapse(fetched)) == SortObservations(Collapse(seen))
  {
    SameElements(fetched, seen);
    PermutationKeepsIds(seen, fetched);
    SeenReadsAlone(seen, k, q);
    SeenReadsAlone(fetched, k, q);
  }

  /** The latest versions among the selected rows are the latest versions above the floor: it is part of a fact. */
  lemma FloorKeepsLatest(rows: Rows, seen: Rows, k: int, since: Option<int>, q: Query, o: Observation)
    requires forall p :: p in seen <==> p in rows && Selected(p, k, since, q)
    ensures LatestKnown(seen, k, q, o) <==> LatestKnown(rows, k, q, o) && NotBefore(since)(o)
  {
  }

  lemma SelectedAreUntied(rows: Rows, seen: Rows, k: int, since: Option<int>, q: Query)
    requires forall p :: p in seen <==> p in rows && Selected(p, k, since, q)
    ensures LatestAreUntied(seen, k, q) <==> UntiedSince(rows, k, since, q)
  {
    forall o ensures LatestKnown(seen, k, q, o) <==> LatestKnown(rows, k, q, o) && NotBefore(since)(o) {
      FloorKeepsLatest(rows, seen, k, since, q, o);
    }
  }

  lemma DistinctKeysDoNotRepeat(rows: Rows)
    requires DistinctKeys(rows)
    ensures NoRepeats(rows)
  {
    forall i, j | 0 <= i < j < |rows| ensures rows[i] != rows[j] {
      assert rows[i].LogicalKey() != rows[j].LogicalKey();
    }
  }

  /** The in-memory list down to the floor is in order, without repeats. */
  lemma OracleAboveFloor(rows: Rows, k: int, since: Option<int>, q: Query)
    requires WellFormed(rows)
    ensures var result := Filter(AsOf(rows, k, q), NotBefore(since));
      && Sorted(result, (o: Observation) => o.SortKey()) && NoRepeats(result)
      && forall o :: o in result <==> LatestKnown(rows, k, q, o) && NotBefore(since)(o)
  {
    var key := (o: Observation) => o.SortKey();
    AsOfIsLatestKnown(rows, k, q);
    SortSorts(Collapse(Filter(rows, SeenBy(k, q))), key);
    DistinctKeysDoNotRepeat(AsOf(rows, k, q));
    FilterKeepsOrder(AsOf(rows, k, q), key, NotBefore(since));
    FilterElements(AsOf(rows, k, q), NotBefore(since));
  }

  /** Without ties any result set reads back as the in-memory list down to the floor. */
  lemma UntiedReadsTheOracle(table: Table, rows: Rows, fetched: Rows, k: int, since: Option<int>, q: Query)
    requires WellFormed(rows) && Mirrors(table, rows) && ResultSet(fetched, table, k, since, q)
    requires UntiedSince(rows, k, since, q)
    ensures SortObservations(Collapse(fetched)) == Filter(AsOf(rows, k, q), NotBefore(since))
  {
    var a, b, key := SortObservations(Collapse(fetched)), Filter(AsOf(rows, k, q), NotBefore(since)),
      (o: Observation) => o.SortKey();
    OracleAboveFloor(rows, k, since, q);
    SqlAgreesWithOracle(table, rows, fetched, k, since, q);
    AsOfIsLatestKnown(rows, k, q);
    DistinctIdsAreVersioned(fetched);
    CollapseKeepsLatest(fetched);
    SortKeepsDistinctKeys(Collapse(fetched));
    DistinctKeysDoNotRepeat(a);
    SortSorts(Collapse(fetched), key);
    SameWithoutRepeats(a, b);
    SortedIsUnique(a, b, key);
  }

  /** With a tie, two result sets read back differently. */
  lemma TiedReadsDiffer(table: Table, rows: Rows, k: int, since: Option<int>, q: Query)
    requires WellFormed(rows) && Mirrors(table, rows) && !UntiedSince(rows, k, since, q)
    ensures !ReadsIdentically(table, rows, k, since, q)
  {
    var seen := Filter(rows, SelectedBy(k, since, q));
    FilterElements(rows, SelectedBy(k, since, q));
    WellFormedIsVersioned(rows, SelectedBy(k, since, q));
    SelectedAreUntied(rows, seen, k, since, q);
    ReproducibleIffNoTies(seen, k, q);
    var fetched :| !ReadsBackLike(seen, fetched, k, q);
    OrderReadsLike(seen, fetched, k, q);
    ResultSetsAreOrders(table, rows, fetched, k, since, q);
    ResultSetsAreOrders(table, rows, seen, k, since, q);
  }

  /**
   * The very same list comes back, down to the floor and whatever the database does, exactly if no two facts above the
   * floor tie in the sort key.
   */
  lemma SqlReadsAreIdenticalIff(table: Table, rows: Rows, k: int, since: Option<int>, q: Query)
    requires WellFormed(rows) && Mirrors(table, rows)
    ensures ReadsIdentically(table, rows, k, since, q) <==> UntiedSince(rows, k, since, q)
  {
    if UntiedSince(rows, k, since, q) {
      forall fetched | ResultSet(fetched, table, k, since, q)
        ensures SortObservations(Collapse(fetched)) == Filter(AsOf(rows, k, q), NotBefore(since))
      {
        UntiedReadsTheOracle(table, rows, fetched, k, since, q);
      }
    } else {
      TiedReadsDiffer(table, rows, k, since, q);
    }
  }

  // --------------------------------------------- filters and collapse commute

  /** Filters on what identifies a fact commute with collapsing its revisions. */
  lemma KeyFiltersCommute(rows: Rows, k: int, source: Option<string>, dataset: Option<string>, entityId: Option<string>)
    requires WellFormed(rows)
    ensures var q := Query(source, dataset, None, entityId);
      forall o :: o in AsOf(rows, k, q) <==> o in AsOf(rows, k, ANY) && q.Matches(o)
  {
    var q := Query(source, dataset, None, entityId);
    AsOfIsLatestKnown(rows, k, q);
    AsOfIsLatestKnown(rows, k, ANY);
    forall o ensures LatestKnown(rows, k, q, o) <==> LatestKnown(rows, k, ANY, o) && q.Matches(o) {
      forall p | p in rows && p.LogicalKey() == o.LogicalKey() ensures q.Matches(p) <==> q.Matches(o) {
      }
    }
  }

  /** No fact with a version of this entity type is of another type in its latest version. */
  ghost predicate TypeIsCurrent(rows: Rows, k: int, entityType: string) {
    forall o, l ::
      (o in rows && o.knowledgeTime <= k && o.entityType == entityType
       && l in AsOf(rows, k, ANY) && l.LogicalKey() == o.LogicalKey())
      ==> l.entityType == entityType
  }

  function OfType(entityType: string): Query {
    Query(None, None, Some(entityType), None)
  }

  lemma LatestIsUnique(rows: Rows, k: int, q: Query, o: Observation, p: Observation)
    requires WellFormed(rows) && LatestKnown(rows, k, q, o) && LatestKnown(rows, k, q, p)
    requires o.LogicalKey() == p.LogicalKey()
    ensures o == p
  {
    assert o.id == o.DeterministicId() && p.id == p.DeterministicId();
    DifferentRowsDifferentIds(rows, o, p);
  }

  /** Where no visible fact changes its type, the latest version of the type is the latest of all. */
  lemma CurrentTypeIsLatest(rows: Rows, k: int, entityType: string, o: Observation)
    requires WellFormed(rows) && TypeIsCurrent(rows, k, entityType) && LatestKnown(rows, k, OfType(entityType), o)
    ensures LatestKnown(rows, k, ANY, o)
  {
    AsOfIsLatestKnown(rows, k, ANY);
    var l := EveryKnownFactIsReturned(rows, k, ANY, o);
    assert LatestKnown(rows, k, OfType(entityType), l);
    LatestIsUnique(rows, k, OfType(entityType), o, l);
  }

  /** A fact that changed its type is returned in a superseded version. */
  lemma ChangedTypeIsSuperseded(rows: Rows, k: int, entityType: string, o: Observation, l: Observation)
    returns (m: Observation)
    requires WellFormed(rows) && o in rows && o.knowledgeTime <= k && o.entityType == entityType
    requires LatestKnown(rows, k, ANY, l) && l.LogicalKey() == o.LogicalKey() && l.entityType != entityType
    ensures m in AsOf(rows, k, OfType(entityType)) && m !in AsOf(rows, k, ANY)
  {
    AsOfIsLatestKnown(rows, k, OfType(entityType));
    AsOfIsLatestKnown(rows, k, ANY);
    m := EveryKnownFactIsReturned(rows, k, OfType(entityType), o);
    if LatestKnown(rows, k, ANY, m) {
      LatestIsUnique(rows, k, ANY, m, l);
      assert false;
    }
  }

  /**
   * The entity-type filter is not of that kind: it is applied before the collapse, so it commutes
   * with it exactly when no visible fact has been moved to another entity type.
   */
  lemma EntityTypeFilterCommutesIff(rows: Rows, k: int, entityType: string)
    requires WellFormed(rows)
    ensures
      (forall o :: o in AsOf(rows, k, OfType(entityType)) <==> o in AsOf(rows, k, ANY) && o.entityType == entityType)
      <==> TypeIsCurrent(rows, k, entityType)
  {
    AsOfIsLatestKnown(rows, k, OfType(entityType));
    AsOfIsLatestKnown(rows, k, ANY);
    if TypeIsCurrent(rows, k, entityType) {
      forall o
        ensures o in AsOf(rows, k, OfType(entityType)) <==> o in AsOf(rows, k, ANY) && o.entityType == entityType
      {
        if LatestKnown(rows, k, OfType(entityType), o) {
          CurrentTypeIsLatest(rows, k, entityType, o);
        }
      }
    } else {
      var o, l :| o in rows && o.knowledgeTime <= k && o.entityType == entityType
        && l in AsOf(rows, k, ANY) && l.LogicalKey() == o.LogicalKey() && l.entityType != entityType;
      var m := ChangedTypeIsSuperseded(rows, k, entityType, o, l);
    }
  }

  // ------------------------------------------------- slicing by event time

  /** Every matching row became known by t exactly if it happened by t. */
  ghost predicate KnownWhenTrue(rows: Rows, t: int, q: Query) {
    forall o :: o in rows && q.Matches(o) ==> (o.knowledgeTime <= t <==> o.eventTime <= t)
  }

  /** The shortcut that loads everything once and slices by event time returns what was knowable at t. */
  ghost predicate SliceIsPointInTime(rows: Rows, future: int, t: int, q: Query) {
    forall o :: o in AsOf(rows, t, q) <==> o in AsOf(rows, future, q) && o.eventTime <= t
  }

  /**
   * Slicing a fully revealed panel at event time t is the point-in-time panel at t exactly
   * when no matching row is published late (or early) relative to t.
   */
  lemma SliceIsPointInTimeIff(rows: Rows, future: int, t: int, q: Query)
    requires WellFormed(rows) && t <= future
    requires forall o :: o in rows ==> o.knowledgeTime <= future
    ensures SliceIsPointInTime(rows, future, t, q) <==> KnownWhenTrue(rows, t, q)
  {
    AsOfIsLatestKnown(rows, t, q);
    AsOfIsLatestKnown(rows, future, q);
    if KnownWhenTrue(rows, t, q) {
      forall o ensures LatestKnown(rows, t, q, o) <==> LatestKnown(rows, future, q, o) && o.eventTime <= t {
      }
    }
    if SliceIsPointInTime(rows, future, t, q) {
      forall o | o in rows && q.Matches(o) ensures o.knowledgeTime <= t <==> o.eventTime <= t {
        if o.knowledgeTime <= t {
          var l := EveryKnownFactIsReturned(rows, t, q, o);
        } else {
          var l := EveryKnownFactIsReturned(rows, future, q, o);
          assert LatestKnown(rows, future, q, l) && l.knowledgeTime > t;
        }
      }
    }
  }
}
