/** What the point-in-time store promises, for every history of insertions. */
module BitemporalLaws {
  import opened Prelude
  import opened Ordering
  import opened Bitemporal

  ghost predicate Deterministic(os: seq<Observation>) {
    forall o :: o in os ==> o.id == o.DeterministicId()
  }

  ghost predicate DistinctIds(rows: Rows) {
    forall i, j :: 0 <= i < j < |rows| ==> rows[i].id != rows[j].id
  }

  /** A store every row of which carries its content-derived identifier. */
  ghost predicate WellFormed(rows: Rows) {
    Deterministic(rows) && DistinctIds(rows)
  }

  // ---------------------------------------------------------------- insertion

  lemma {:induction false} UpsertElements(rows: Rows, o: Observation)
    requires DistinctIds(rows)
    ensures forall p :: p in Upsert(rows, o) <==> p == o || (p in rows && p.id != o.id)
    ensures DistinctIds(Upsert(rows, o))
  {
    if rows != [] {
      assert rows == [rows[0]] + rows[1..];
      if rows[0].id == o.id {
        assert forall p :: p in rows[1..] ==> p.id != o.id;
      } else {
        UpsertElements(rows[1..], o);
        var tail := Upsert(rows[1..], o);
        forall j | 0 <= j < |tail| ensures tail[j].id != rows[0].id {
          assert tail[j] in tail;
        }
      }
    }
  }

  lemma {:induction false} UpsertAllWellFormed(rows: Rows, os: seq<Observation>)
    requires WellFormed(rows) && Deterministic(os)
    ensures WellFormed(UpsertAll(rows, os))
  {
    if os != [] {
      UpsertAllWellFormed(rows, os[..|os| - 1]);
      UpsertElements(UpsertAll(rows, os[..|os| - 1]), os[|os| - 1]);
    }
  }

  /** Inserting observations with pairwise distinct identifiers: the store holds exactly them. */
  lemma {:induction false} IngestedRows(os: seq<Observation>)
    requires DistinctIds(os)
    ensures UpsertAll([], os) == os
  {
    if os != [] {
      var init, last := os[..|os| - 1], os[|os| - 1];
      IngestedRows(init);
      UpsertAt(init, last, |init|);
      assert os == init + [last];
    }
  }

  /** Rows the query cannot see yet leave no trace in what it sees, nor in its order. */
  lemma {:induction false} UnseenUpsert(rows: Rows, o: Observation, k: int, q: Query)
    requires Deterministic(rows) && o.id == o.DeterministicId()
    requires o.knowledgeTime > k
    ensures FilterFront(Upsert(rows, o), k, q) == FilterFront(rows, k, q)
  {
    if rows != [] && rows[0].id != o.id {
      UnseenUpsert(rows[1..], o, k, q);
    } else if rows != [] {
      assert rows[0] in rows;
    }
  }

  /** The same filter taken from the front, to match insertion. */
  ghost function FilterFront(rows: Rows, k: int, q: Query): Rows {
    if rows == [] then []
    else (if Seen(rows[0], k, q) then [rows[0]] else []) + FilterFront(rows[1..], k, q)
  }

  lemma {:induction false} FilterFrontIsFilter(rows: Rows, k: int, q: Query)
    ensures FilterFront(rows, k, q) == Filter(rows, SeenBy(k, q))
  {
    if rows != [] {
      var init, last := rows[..|rows| - 1], rows[|rows| - 1];
      FilterFrontIsFilter(init, k, q);
      FilterFrontSnoc(init, last, k, q);
      assert rows == init + [last];
    }
  }

  lemma {:induction false} FilterFrontSnoc(rows: Rows, o: Observation, k: int, q: Query)
    ensures FilterFront(rows + [o], k, q) == FilterFront(rows, k, q) + if Seen(o, k, q) then [o] else []
  {
    if rows != [] {
      assert (rows + [o])[1..] == rows[1..] + [o];
      FilterFrontSnoc(rows[1..], o, k, q);
    }
  }

  /**
   * Point-in-time non-interference: whatever is ingested later with a later knowledge time,
   * a query as of k returns exactly the same rows in the same order.
   */
  lemma {:induction false} LaterKnowledgeDoesNotInterfere(rows: Rows, later: seq<Observation>, k: int, q: Query)
    requires WellFormed(rows) && Deterministic(later)
    requires forall o :: o in later ==> o.knowledgeTime > k
    ensures AsOf(UpsertAll(rows, later), k, q) == AsOf(rows, k, q)
  {
    SeenPartUnchanged(rows, later, k, q);
  }

  lemma {:induction false} SeenPartUnchanged(rows: Rows, later: seq<Observation>, k: int, q: Query)
    requires WellFormed(rows) && Deterministic(later)
    requires forall o :: o in later ==> o.knowledgeTime > k
    ensures Filter(UpsertAll(rows, later), SeenBy(k, q)) == Filter(rows, SeenBy(k, q))
  {
    if later != [] {
      var init, last := later[..|later| - 1], later[|later| - 1];
      SeenPartUnchanged(rows, init, k, q);
      UpsertAllWellFormed(rows, init);
      var before := UpsertAll(rows, init);
      UnseenUpsert(before, last, k, q);
      FilterFrontIsFilter(before, k, q);
      FilterFrontIsFilter(UpsertAll(rows, later), k, q);
    }
  }

  // ------------------------------------------------------------------ collapse

  /** Versions of one fact are told apart by knowledge time and revision. */
  ghost predicate Versioned(rows: Rows) {
    && (forall i, j :: 0 <= i < j < |rows| ==> rows[i] != rows[j])
    && (forall o, p :: o in rows && p in rows && o.LogicalKey() == p.LogicalKey() && o != p
         ==> o.NewerThan(p) || p.NewerThan(o))
  }

  /** o is the latest version of its fact among rows. */
  ghost predicate Latest(rows: Rows, o: Observation) {
    o in rows && forall p :: p in rows && p.LogicalKey() == o.LogicalKey() ==> !p.NewerThan(o)
  }

  ghost predicate DistinctKeys(rows: Rows) {
    forall i, j :: 0 <= i < j < |rows| ==> rows[i].LogicalKey() != rows[j].LogicalKey()
  }

  lemma {:induction false} SupersedeElements(best: Rows, o: Observation)
    requires DistinctKeys(best)
    ensures DistinctKeys(Supersede(best, o))
    ensures forall p :: p in Supersede(best, o) <==>
      || (p in best && (p.LogicalKey() == o.LogicalKey() ==> !o.NewerThan(p)))
      || (p == o && forall r :: r in best && r.LogicalKey() == o.LogicalKey() ==> o.NewerThan(r))
  {
    if best != [] {
      assert best == [best[0]] + best[1..];
      if best[0].LogicalKey() == o.LogicalKey() {
        assert forall p :: p in best[1..] ==> p.LogicalKey() != o.LogicalKey();
      } else {
        SupersedeElements(best[1..], o);
        var tail := Supersede(best[1..], o);
        forall j | 0 <= j < |tail| ensures tail[j].LogicalKey() != best[0].LogicalKey() {
          assert tail[j] in tail;
        }
      }
    }
  }

  /** Every fact has a latest version. */
  lemma {:induction false} LatestExists(rows: Rows, o: Observation) returns (l: Observation)
    requires Versioned(rows) && o in rows
    ensures Latest(rows, l) && l.LogicalKey() == o.LogicalKey() && !o.NewerThan(l)
  {
    l := o;
    for n := 0 to |rows|
      invariant l in rows && l.LogicalKey() == o.LogicalKey() && !o.NewerThan(l)
      invariant forall i :: 0 <= i < n && rows[i].LogicalKey() == o.LogicalKey() ==> !rows[i].NewerThan(l)
    {
      if rows[n].LogicalKey() == o.LogicalKey() && rows[n].NewerThan(l) {
        l := rows[n];
      }
    }
  }

  /** The collapse keeps exactly the latest version of every fact, once. */
  lemma {:induction false} CollapseKeepsLatest(rows: Rows)
    requires Versioned(rows)
    ensures DistinctKeys(Collapse(rows))
    ensures forall o :: o in Collapse(rows) <==> Latest(rows, o)
  {
    if rows != [] {
      var init, last := rows[..|rows| - 1], rows[|rows| - 1];
      assert rows == init + [last];
      assert Versioned(init);
      CollapseKeepsLatest(init);
      var best := Collapse(init);
      SupersedeElements(best, last);
      forall o ensures o in Collapse(rows) <==> Latest(rows, o) {
        OneMoreRow(init, last, o);
      }
    }
  }

  /** Who is the latest after one more row. */
  lemma OneMoreRow(init: Rows, last: Observation, o: Observation)
    requires Versioned(init + [last])
    ensures Versioned(init)
    ensures Latest(init + [last], o) <==>
      || (Latest(init, o) && (o.LogicalKey() == last.LogicalKey() ==> !last.NewerThan(o)))
      || (o == last && forall r :: Latest(init, r) && r.LogicalKey() == last.LogicalKey() ==> last.NewerThan(r))
  {
    var rows := init + [last];
    assert forall p :: p in init ==> p in rows;
    assert forall i :: 0 <= i < |init| ==> init[i] == rows[i];
    assert rows[|init|] == last;
    if o == last && forall r :: Latest(init, r) && r.LogicalKey() == last.LogicalKey() ==> last.NewerThan(r) {
      forall p | p in init && p.LogicalKey() == last.LogicalKey() ensures !p.NewerThan(last) {
        var l := LatestExists(init, p);
      }
    }
  }

  lemma {:induction false} FilterIsWellFormed(rows: Rows, p: Observation -> bool)
    requires WellFormed(rows)
    ensures WellFormed(Filter(rows, p))
  {
    FilterElements(rows, p);
    if rows != [] {
      var init, last := rows[..|rows| - 1], rows[|rows| - 1];
      FilterIsWellFormed(init, p);
      FilterElements(init, p);
      var kept := Filter(init, p);
      forall o | o in kept ensures o.id != last.id {
        var i :| 0 <= i < |init| && init[i] == o;
        assert rows[i] == o;
      }
    }
  }

  lemma DistinctIdsAreVersioned(rows: Rows)
    requires WellFormed(rows)
    ensures Versioned(rows)
  {
  }

  /** Content-derived identifiers make versions distinguishable. */
  lemma WellFormedIsVersioned(rows: Rows, p: Observation -> bool)
    requires WellFormed(rows)
    ensures Versioned(Filter(rows, p))
    ensures WellFormed(Filter(rows, p))
  {
    FilterIsWellFormed(rows, p);
    DistinctIdsAreVersioned(Filter(rows, p));
  }

  // ---------------------------------------------------------------- the queries

  /** o is the version of its fact that is the latest one visible to the query as of k. */
  ghost predicate LatestKnown(rows: Rows, k: int, q: Query, o: Observation) {
    && o in rows && Seen(o, k, q)
    && forall p :: p in rows && Seen(p, k, q) && p.LogicalKey() == o.LogicalKey() ==> !p.NewerThan(o)
  }

  lemma PermutationKeepsKeys(rows: Rows, other: Rows)
    requires multiset(rows) == multiset(other) && DistinctKeys(rows)
    ensures DistinctKeys(other) && forall o :: o in other <==> o in rows
  {
    SameElements(other, rows);
    forall i, j | 0 <= i < j < |other| ensures other[i].LogicalKey() != other[j].LogicalKey() {
      if other[i].LogicalKey() == other[j].LogicalKey() {
        var a := ElementAt(other, rows, i);
        var b := ElementAt(other, rows, j);
        TwiceIsTwo(other, i, j);
        CountIsOne(rows, other[i]);
        assert false;
      }
    }
  }

  lemma SortKeepsDistinctKeys(rows: Rows)
    requires DistinctKeys(rows)
    ensures DistinctKeys(SortObservations(rows))
    ensures forall o :: o in SortObservations(rows) <==> o in rows
  {
    SortKeepsElements(rows, (o: Observation) => o.SortKey());
    PermutationKeepsKeys(rows, SortObservations(rows));
  }

  lemma TwiceIsTwo(s: Rows, i: nat, j: nat)
    requires i < j < |s| && s[i] == s[j]
    ensures multiset(s)[s[i]] >= 2
  {
    assert s == s[..i] + [s[i]] + s[i + 1..j] + [s[j]] + s[j + 1..];
  }

  /**
   * What a point-in-time query returns, for any content of the store: for each fact with a version
   * visible as of k, exactly one row, the one greatest by knowledge time and revision.
   */
  lemma AsOfIsLatestKnown(rows: Rows, k: int, q: Query)
    requires WellFormed(rows)
    ensures forall o :: o in AsOf(rows, k, q) <==> LatestKnown(rows, k, q, o)
    ensures DistinctKeys(AsOf(rows, k, q))
  {
    var seen := Filter(rows, SeenBy(k, q));
    WellFormedIsVersioned(rows, SeenBy(k, q));
    FilterElements(rows, SeenBy(k, q));
    CollapseKeepsLatest(seen);
    SortKeepsDistinctKeys(Collapse(seen));
    forall o ensures Latest(seen, o) <==> LatestKnown(rows, k, q, o) {
    }
  }

  /** Two versions of one fact: it says when and where and by whom, not what was known when. */
  predicate SameFact(o: Observation, p: Observation) {
    && o.source == p.source && o.dataset == p.dataset && o.entityId == p.entityId
    && o.eventTime == p.eventTime && o.ref == p.ref
  }

  /** Known by k, and of the source, dataset, type and entity that are asked for. */
  predicate AskedFor(o: Observation, k: int, q: Query) {
    && o.knowledgeTime <= k
    && (q.source.Some? ==> o.source == q.source.value)
    && (q.dataset.Some? ==> o.dataset == q.dataset.value)
    && (q.entityType.Some? ==> o.entityType == q.entityType.value)
    && (q.entityId.Some? ==> o.entityId == q.entityId.value)
  }

  /**
   * Field by field: a row is returned exactly if it was asked for, and of the versions asked for none was known later
   * or, known at the same time, is a higher revision.
   */
  lemma AsOfFieldByField(rows: Rows, k: int, q: Query, o: Observation)
    requires WellFormed(rows)
    ensures o in AsOf(rows, k, q) <==>
      && o in rows && AskedFor(o, k, q)
      && forall p :: p in rows && AskedFor(p, k, q) && SameFact(p, o) ==>
           p.knowledgeTime < o.knowledgeTime || (p.knowledgeTime == o.knowledgeTime && p.revision <= o.revision)
  {
    AsOfIsLatestKnown(rows, k, q);
    forall p ensures AskedFor(p, k, q) <==> Seen(p, k, q) {
    }
    forall p ensures SameFact(p, o) <==> p.LogicalKey() == o.LogicalKey() {
    }
  }

  /** The order of the rows: by knowledge time, event time, source, dataset, entity and revision. */
  ghost predicate ComesFirst(a: Observation, b: Observation) {
    if a.knowledgeTime != b.knowledgeTime then a.knowledgeTime < b.knowledgeTime
    else if a.eventTime != b.eventTime then a.eventTime < b.eventTime
    else if a.source != b.source then TextLe(a.source, b.source)
    else if a.dataset != b.dataset then TextLe(a.dataset, b.dataset)
    else if a.entityId != b.entityId then TextLe(a.entityId, b.entityId)
    else a.revision <= b.revision
  }

  lemma SortKeyOrders(a: Observation, b: Observation)
    ensures Le(a.SortKey(), b.SortKey()) <==> ComesFirst(a, b)
  {
    var a5, b5 := [Number(a.revision)], [Number(b.revision)];
    var a4, b4 := [Text(a.entityId)] + a5, [Text(b.entityId)] + b5;
    var a3, b3 := [Text(a.dataset)] + a4, [Text(b.dataset)] + b4;
    var a2, b2 := [Text(a.source)] + a3, [Text(b.source)] + b3;
    var a1, b1 := [Number(a.eventTime)] + a2, [Number(b.eventTime)] + b2;
    assert a.SortKey() == [Number(a.knowledgeTime)] + a1 && b.SortKey() == [Number(b.knowledgeTime)] + b1;
    FirstDecides(Number(a.knowledgeTime), a1, Number(b.knowledgeTime), b1);
    FirstDecides(Number(a.eventTime), a2, Number(b.eventTime), b2);
    FirstDecides(Text(a.source), a3, Text(b.source), b3);
    FirstDecides(Text(a.dataset), a4, Text(b.dataset), b4);
    FirstDecides(Text(a.entityId), a5, Text(b.entityId), b5);
    NumberKeyOrder(a.revision, b.revision);
    TextOrder(a.source, b.source);
    TextOrder(a.dataset, b.dataset);
    TextOrder(a.entityId, b.entityId);
    NumbersDiffer(a.knowledgeTime, b.knowledgeTime);
    NumbersDiffer(a.eventTime, b.eventTime);
  }

  lemma NumbersDiffer(a: int, b: int)
    ensures Number(a) == Number(b) <==> a == b
    ensures ComponentLe(Number(a), Number(b)) <==> a <= b
  {
    NumberOrder(a, b);
    assert Number(a)[0] == a && Number(b)[0] == b;
  }

  /** And the rows come back in that order. */
  lemma AsOfIsOrdered(rows: Rows, k: int, q: Query, i: nat, j: nat)
    requires i < j < |AsOf(rows, k, q)|
    ensures ComesFirst(AsOf(rows, k, q)[i], AsOf(rows, k, q)[j])
  {
    var found := Collapse(Filter(rows, SeenBy(k, q)));
    SortSorts(found, (o: Observation) => o.SortKey());
    SortKeyOrders(AsOf(rows, k, q)[i], AsOf(rows, k, q)[j]);
  }

  /** A fact with any visible version is represented, by a version at least as new. */
  lemma EveryKnownFactIsReturned(rows: Rows, k: int, q: Query, o: Observation) returns (l: Observation)
    requires WellFormed(rows)
    requires o in rows && Seen(o, k, q)
    ensures l in AsOf(rows, k, q) && l.LogicalKey() == o.LogicalKey() && !o.NewerThan(l)
  {
    var seen := Filter(rows, SeenBy(k, q));
    WellFormedIsVersioned(rows, SeenBy(k, q));
    FilterElements(rows, SeenBy(k, q));
    l := LatestExists(seen, o);
    AsOfIsLatestKnown(rows, k, q);
    assert LatestKnown(rows, k, q, l);
  }

  /** As the query moves forward in knowledge time, a fact never disappears nor goes back to an older version. */
  lemma VersionsOnlyAdvance(rows: Rows, k: int, k': int, q: Query, o: Observation) returns (l: Observation)
    requires WellFormed(rows) && k <= k'
    requires o in AsOf(rows, k, q)
    ensures l in AsOf(rows, k', q) && l.LogicalKey() == o.LogicalKey()
    ensures l == o || (l.NewerThan(o) && l.knowledgeTime > k)
  {
    AsOfIsLatestKnown(rows, k, q);
    AsOfIsLatestKnown(rows, k', q);
    l := EveryKnownFactIsReturned(rows, k', q, o);
    if l != o && !l.NewerThan(o) {
      assert l.id == o.id;
      DifferentRowsDifferentIds(rows, l, o);
    }
  }

  lemma DifferentRowsDifferentIds(rows: Rows, a: Observation, b: Observation)
    requires DistinctIds(rows) && a in rows && b in rows && a.id == b.id
    ensures a == b
  {
  }

  lemma PermutationKeepsIds(os: seq<Observation>, os': seq<Observation>)
    requires multiset(os) == multiset(os') && DistinctIds(os)
    ensures DistinctIds(os')
  {
    forall i, j | 0 <= i < j < |os'| ensures os'[i].id != os'[j].id {
      if os'[i].id == os'[j].id {
        var a := ElementAt(os', os, i);
        var b := ElementAt(os', os, j);
        assert os'[i] == os'[j];
        TwiceIsTwo(os', i, j);
        OnceByIds(os, os'[i]);
        assert false;
      }
    }
  }

  lemma {:induction false} OnceByIds(os: seq<Observation>, o: Observation)
    requires DistinctIds(os)
    ensures multiset(os)[o] <= 1
  {
    if os != [] {
      OnceByIds(os[1..], o);
      assert os == [os[0]] + os[1..];
      assert os[0] !in os[1..];
    }
  }

  /** Whatever order distinct observations are ingested in, a query returns the same rows. */
  lemma IngestionOrderIsImmaterial(os: seq<Observation>, os': seq<Observation>, k: int, q: Query)
    requires multiset(os) == multiset(os') && DistinctIds(os) && Deterministic(os)
    ensures forall o :: o in AsOf(UpsertAll([], os), k, q) <==> o in AsOf(UpsertAll([], os'), k, q)
    ensures multiset(AsOf(UpsertAll([], os), k, q)) == multiset(AsOf(UpsertAll([], os'), k, q))
  {
    SameElements(os, os');
    PermutationKeepsIds(os, os');
    IngestedRows(os);
    IngestedRows(os');
    AsOfIsLatestKnown(os, k, q);
    AsOfIsLatestKnown(os', k, q);
    DistinctSameElements(AsOf(os, k, q), AsOf(os', k, q));
  }

  /** No two rows share the sort key. */
  ghost predicate NoTies(rows: Rows) {
    forall o, p :: o in rows && p in rows && o.SortKey() == p.SortKey() ==> o == p
  }

  lemma {:induction false} DistinctSameElements(a: Rows, b: Rows)
    requires DistinctKeys(a) && DistinctKeys(b)
    requires forall o :: o in a <==> o in b
    ensures multiset(a) == multiset(b)
  {
    forall o ensures multiset(a)[o] == multiset(b)[o] {
      CountIsOne(a, o);
      CountIsOne(b, o);
    }
  }

  lemma {:induction false} CountIsOne(a: Rows, o: Observation)
    requires DistinctKeys(a)
    ensures multiset(a)[o] == if o in a then 1 else 0
  {
    if a != [] {
      CountIsOne(a[1..], o);
      assert a == [a[0]] + a[1..];
      assert a[0] !in a[1..];
    }
  }

  /** Without ties even the order of the returned rows is independent of the order of ingestion. */
  lemma UntiedReadsAreReproducible(os: seq<Observation>, os': seq<Observation>, k: int, q: Query)
    requires multiset(os) == multiset(os') && DistinctIds(os) && Deterministic(os)
    requires NoTies(AsOf(UpsertAll([], os), k, q))
    ensures AsOf(UpsertAll([], os'), k, q) == AsOf(UpsertAll([], os), k, q)
  {
    var a, b := AsOf(UpsertAll([], os), k, q), AsOf(UpsertAll([], os'), k, q);
    var key := (o: Observation) => o.SortKey();
    IngestionOrderIsImmaterial(os, os', k, q);
    SortSorts(Collapse(Filter(UpsertAll([], os), SeenBy(k, q))), key);
    SortSorts(Collapse(Filter(UpsertAll([], os'), SeenBy(k, q))), key);
    SortedIsUnique(a, b, key);
  }

  lemma SupersedeKeepsFirstTwo(best: Rows, o: Observation)
    requires |best| >= 2
    requires forall i :: 0 <= i < 2 && best[i].LogicalKey() == o.LogicalKey() ==> !o.NewerThan(best[i])
    ensures var s := Supersede(best, o); |s| >= 2 && s[0] == best[0] && s[1] == best[1]
  {
    var tail := best[1..];
    assert tail[0] == best[1];
    assert Supersede(tail, o) != [] && Supersede(tail, o)[0] == tail[0];
  }

  /** Two facts whose latest versions arrive first are kept in their order of arrival. */
  lemma {:induction false} FirstTwoStayFirst(a: Observation, b: Observation, rest: Rows)
    requires a.LogicalKey() != b.LogicalKey()
    requires forall o :: o in rest && o.LogicalKey() == a.LogicalKey() ==> !o.NewerThan(a)
    requires forall o :: o in rest && o.LogicalKey() == b.LogicalKey() ==> !o.NewerThan(b)
    ensures var c := Collapse([a, b] + rest); |c| >= 2 && c[0] == a && c[1] == b
  {
    var rows := [a, b] + rest;
    if rest == [] {
      assert rows == [a, b] && rows[..1] == [a] && [a][..0] == [];
      assert Collapse([a]) == [a];
      assert [a][1..] == [] && Supersede([], b) == [b];
    } else {
      var init, last := rest[..|rest| - 1], rest[|rest| - 1];
      FirstTwoStayFirst(a, b, init);
      assert rows[..|rows| - 1] == [a, b] + init;
      SupersedeKeepsFirstTwo(Collapse([a, b] + init), last);
    }
  }

  /** The collapse of rows that begin with two returned ones begins with them. */
  lemma ReturnedRowsLead(a: Observation, b: Observation, rest: Rows, k: int, q: Query)
    requires WellFormed([a, b] + rest)
    requires a in AsOf([a, b] + rest, k, q) && b in AsOf([a, b] + rest, k, q)
    ensures var best := Collapse(Filter([a, b] + rest, SeenBy(k, q)));
      DistinctKeys(best) && |best| >= 2 && best[0] == a && best[1] == b
  {
    var rows := [a, b] + rest;
    assert a == rows[0] && b == rows[1];
    AsOfIsLatestKnown(rows, k, q);
    FilterOfPair(a, b, rest, SeenBy(k, q));
    FilterElements(rest, SeenBy(k, q));
    TiedKeysDiffer(rows, k, q, a, b);
    FirstTwoStayFirst(a, b, Filter(rest, SeenBy(k, q)));
    WellFormedIsVersioned(rows, SeenBy(k, q));
    CollapseKeepsLatest(Filter(rows, SeenBy(k, q)));
  }

  function OneOf(a: Observation, b: Observation): Observation -> bool {
    (o: Observation) => o == a || o == b
  }

  lemma PairLeads(best: Rows, a: Observation, b: Observation)
    requires DistinctKeys(best) && |best| >= 2 && best[0] == a && best[1] == b
    ensures Filter(best, OneOf(a, b)) == [a, b]
  {
    assert best == [a, b] + best[2..];
    FilterOfPair(a, b, best[2..], OneOf(a, b));
    NothingElse(best, a, b);
  }

  /** Sorting leaves a tied pair in place relative to each other. */
  lemma SortKeepsTiedPair(best: Rows, a: Observation, b: Observation)
    requires DistinctKeys(best) && |best| >= 2 && best[0] == a && best[1] == b
    requires a.SortKey() == b.SortKey()
    ensures Filter(SortObservations(best), OneOf(a, b)) == [a, b]
  {
    var key := (o: Observation) => o.SortKey();
    PairLeads(best, a, b);
    TiedAreInOrder(best, key, OneOf(a, b), key(a));
    SortIsStable(best, key, OneOf(a, b));
  }

  lemma TiedAreInOrder(rows: Rows, key: Observation -> SortKey, p: Observation -> bool, tie: SortKey)
    requires forall o :: p(o) ==> key(o) == tie
    ensures InOrder(rows, key, p)
  {
    Total(tie, tie);
  }

  /** The two returned rows a and b, tied, come out in the order their facts came in. */
  lemma TiedRowsKeepArrivalOrder(a: Observation, b: Observation, rest: Rows, k: int, q: Query)
    requires WellFormed([a, b] + rest)
    requires a in AsOf([a, b] + rest, k, q) && b in AsOf([a, b] + rest, k, q)
    requires a.SortKey() == b.SortKey()
    ensures Filter(AsOf([a, b] + rest, k, q), OneOf(a, b)) == [a, b]
  {
    ReturnedRowsLead(a, b, rest, k, q);
    SortKeepsTiedPair(Collapse(Filter([a, b] + rest, SeenBy(k, q))), a, b);
  }

  lemma TiedKeysDiffer(rows: Rows, k: int, q: Query, a: Observation, b: Observation)
    requires WellFormed(rows) && a in AsOf(rows, k, q) && b in AsOf(rows, k, q) && a != b
    ensures a.LogicalKey() != b.LogicalKey()
  {
    AsOfIsLatestKnown(rows, k, q);
  }

  lemma FilterOfPair(a: Observation, b: Observation, rest: Rows, p: Observation -> bool)
    requires p(a) && p(b)
    ensures Filter([a, b] + rest, p) == [a, b] + Filter(rest, p)
  {
    FilterOfConcat([a, b], rest, p);
    FilterOfTwo(a, b, p);
  }

  lemma NothingElse(best: Rows, a: Observation, b: Observation)
    requires DistinctKeys(best) && |best| >= 2 && best[0] == a && best[1] == b
    ensures Filter(best[2..], OneOf(a, b)) == []
  {
    var tail := best[2..];
    forall i | 0 <= i < |tail| ensures tail[i] != a && tail[i] != b {
      assert tail[i] == best[i + 2];
      assert best[0].LogicalKey() != best[i + 2].LogicalKey() && best[1].LogicalKey() != best[i + 2].LogicalKey();
    }
    FilterOfNone(tail, OneOf(a, b));
  }

  /** If os' is another order of os, it reads back the same list. */
  ghost predicate ReadsBackLike(os: seq<Observation>, os': seq<Observation>, k: int, q: Query) {
    multiset(os') == multiset(os) ==> AsOf(UpsertAll([], os'), k, q) == AsOf(UpsertAll([], os), k, q)
  }

  /** Every order of ingesting the same observations reads back the same list. */
  ghost predicate Reproducible(os: seq<Observation>, k: int, q: Query) {
    forall os' :: ReadsBackLike(os, os', k, q)
  }

  /** A tied pair reads back one way or the other depending on which of the two was ingested first. */
  lemma TiedPairReadsDifferently(os: seq<Observation>, a: Observation, b: Observation, k: int, q: Query)
    returns (os': seq<Observation>)
    requires DistinctIds(os) && Deterministic(os)
    requires a in AsOf(UpsertAll([], os), k, q) && b in AsOf(UpsertAll([], os), k, q)
    requires a.SortKey() == b.SortKey() && a != b
    ensures !ReadsBackLike(os, os', k, q)
  {
    var rest := ButTwo(os, a, b, k, q);
    var ab, ba := [a, b] + rest, [b, a] + rest;
    assert multiset(ab) == multiset(os) && multiset(ba) == multiset(os);
    assert AsOf(UpsertAll([], ab), k, q) != AsOf(UpsertAll([], ba), k, q) by {
      TwoOrdersOfTied(os, a, b, rest, k, q);
    }
    os' := if AsOf(UpsertAll([], ab), k, q) == AsOf(UpsertAll([], os), k, q) then ba else ab;
  }

  /** No two facts whose latest versions the query can see tie in the sort key. */
  ghost predicate LatestAreUntied(rows: Rows, k: int, q: Query) {
    forall o, p :: LatestKnown(rows, k, q, o) && LatestKnown(rows, k, q, p) && o.SortKey() == p.SortKey() ==> o == p
  }

  lemma UntiedIff(rows: Rows, k: int, q: Query)
    requires WellFormed(rows)
    ensures NoTies(AsOf(rows, k, q)) <==> LatestAreUntied(rows, k, q)
  {
    AsOfIsLatestKnown(rows, k, q);
  }

  /**
   * Reads are reproducible, for every order in which the same observations can be ingested, exactly when no two
   * facts known by then tie: the sort key leaves out the source's discriminator.
   */
  lemma ReproducibleIffNoTies(os: seq<Observation>, k: int, q: Query)
    requires DistinctIds(os) && Deterministic(os)
    ensures Reproducible(os, k, q) <==> LatestAreUntied(os, k, q)
  {
    IngestedRows(os);
    UntiedIff(os, k, q);
    if LatestAreUntied(os, k, q) {
      forall os' ensures ReadsBackLike(os, os', k, q) {
        if multiset(os') == multiset(os) {
          UntiedReadsAreReproducible(os, os', k, q);
        }
      }
    } else {
      var result := AsOf(UpsertAll([], os), k, q);
      var a, b :| a in result && b in result && a.SortKey() == b.SortKey() && a != b;
      var os' := TiedPairReadsDifferently(os, a, b, k, q);
    }
  }

  /** The rows other than two of them. */
  lemma ButTwo(os: seq<Observation>, a: Observation, b: Observation, k: int, q: Query) returns (rest: Rows)
    requires DistinctIds(os) && Deterministic(os) && a != b
    requires a in AsOf(UpsertAll([], os), k, q) && b in AsOf(UpsertAll([], os), k, q)
    ensures multiset([a, b] + rest) == multiset(os)
  {
    IngestedRows(os);
    AsOfIsLatestKnown(os, k, q);
    var others := ButOne(os, a);
    assert b in multiset(os);
    assert b in multiset(others);
    rest := ButOne(others, b);
    assert multiset([a, b] + rest) == multiset{a} + multiset{b} + multiset(rest);
  }

  lemma ButOne(os: seq<Observation>, a: Observation) returns (rest: Rows)
    requires a in os
    ensures multiset(os) == multiset(rest) + multiset{a}
  {
    var i :| 0 <= i < |os| && os[i] == a;
    rest := os[..i] + os[i + 1..];
    assert os == os[..i] + [a] + os[i + 1..];
  }

  lemma TwoOrdersOfTied(os: seq<Observation>, a: Observation, b: Observation, rest: Rows, k: int, q: Query)
    requires DistinctIds(os) && Deterministic(os)
    requires a in AsOf(UpsertAll([], os), k, q) && b in AsOf(UpsertAll([], os), k, q)
    requires a.SortKey() == b.SortKey() && a != b
    requires multiset([a, b] + rest) == multiset(os)
    ensures AsOf(UpsertAll([], [a, b] + rest), k, q) != AsOf(UpsertAll([], [b, a] + rest), k, q)
  {
    var ab, ba := [a, b] + rest, [b, a] + rest;
    assert multiset(ba) == multiset(ab);
    SameElements(ab, os);
    SameElements(ba, os);
    PermutationKeepsIds(os, ab);
    PermutationKeepsIds(os, ba);
    IngestionOrderIsImmaterial(os, ab, k, q);
    IngestionOrderIsImmaterial(os, ba, k, q);
    IngestedRows(ab);
    IngestedRows(ba);
    TiedRowsKeepArrivalOrder(a, b, rest, k, q);
    TiedRowsKeepArrivalOrder(b, a, rest, k, q);
    SamePair(AsOf(ba, k, q), a, b);
    assert [a, b][0] != [b, a][0];
  }

  lemma {:induction false} SamePair(rows: Rows, a: Observation, b: Observation)
    ensures Filter(rows, OneOf(a, b)) == Filter(rows, OneOf(b, a))
  {
    if rows != [] {
      SamePair(rows[..|rows| - 1], a, b);
    }
  }
}
