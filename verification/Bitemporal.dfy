/**
 * The bitemporal store: every fact carries when it was true and when it became known, and a
 * query as of a knowledge time sees the latest revision known by then.
 */
module Bitemporal {
  import opened Prelude
  import opened Ordering

  const PRICE_DATASET := "price.ohlcv"
  const PREDICTION_DATASET := "forecast.prediction"

  /** The payloads the modelled components write and read. */
  datatype Value =
    | Price(close: real)
    | Drawdown(peak: Option<real>, tripped: bool)
    | SleeveOpen(entryPrice: real, exitBy: int, nBuys: int)
    | SleeveClosed(reason: string)
    | Prediction(probability: real, horizon: int)
    | Audit(event: string)
    | Payload(text: string)

  datatype Id =
    | Derived(source: string, dataset: string, entityId: string, eventTime: int, knowledgeTime: int, revision: int,
              ref: string)
    | Random(n: nat)

  datatype Key = Key(source: string, dataset: string, entityId: string, eventTime: int, ref: Option<string>)

  datatype Observation = Observation(
    source: string, dataset: string, entityType: string, entityId: string, ref: Option<string>,
    eventTime: int, knowledgeTime: int, revision: int, value: Value, id: Id) {

    /** The real-world fact this row is a version of. */
    function LogicalKey(): Key {
      Key(source, dataset, entityId, eventTime, ref)
    }

    /** The content-derived identifier: bitemporal coordinates, not payload. */
    function DeterministicId(): Id {
      Derived(source, dataset, entityId, eventTime, knowledgeTime, revision,
        match ref case None => "" case Some(r) => r)
    }

    function WithDeterministicId(): Observation {
      this.(id := DeterministicId())
    }

    predicate NewerThan(o: Observation) {
      knowledgeTime > o.knowledgeTime || (knowledgeTime == o.knowledgeTime && revision > o.revision)
    }

    function SortKey(): SortKey {
      [Number(knowledgeTime), Number(eventTime), Text(source), Text(dataset), Text(entityId), Number(revision)]
    }
  }

  type Rows = seq<Observation>

  /** Insert-or-replace by identifier; a replaced row keeps its place, as in a dictionary. */
  function Upsert(rows: Rows, o: Observation): Rows {
    if rows == [] then [o]
    else if rows[0].id == o.id then [o] + rows[1..]
    else [rows[0]] + Upsert(rows[1..], o)
  }

  function UpsertAll(rows: Rows, os: seq<Observation>): Rows {
    if os == [] then rows else Upsert(UpsertAll(rows, os[..|os| - 1]), os[|os| - 1])
  }

  /** A point-in-time query. */
  datatype Query = Query(
    source: Option<string>, dataset: Option<string>, entityType: Option<string>, entityId: Option<string>) {
    predicate Matches(o: Observation) {
      && (source == None || source == Some(o.source))
      && (dataset == None || dataset == Some(o.dataset))
      && (entityType == None || entityType == Some(o.entityType))
      && (entityId == None || entityId == Some(o.entityId))
    }
  }

  const ANY := Query(None, None, None, None)

  function OfDataset(dataset: string): Query {
    Query(None, Some(dataset), None, None)
  }

  predicate Seen(o: Observation, k: int, q: Query) {
    o.knowledgeTime <= k && q.Matches(o)
  }

  function SeenBy(k: int, q: Query): Observation -> bool {
    (o: Observation) => Seen(o, k, q)
  }

  /** One step of the collapse: a row replaces the kept version of its fact if it is newer. */
  function Supersede(best: Rows, o: Observation): Rows {
    if best == [] then [o]
    else if best[0].LogicalKey() == o.LogicalKey() then (if o.NewerThan(best[0]) then [o] else [best[0]]) + best[1..]
    else [best[0]] + Supersede(best[1..], o)
  }

  /** Per fact, the most recent version by knowledge time and revision. */
  function Collapse(rows: Rows): Rows {
    if rows == [] then [] else Supersede(Collapse(rows[..|rows| - 1]), rows[|rows| - 1])
  }

  function SortObservations(rows: Rows): Rows {
    Sort(rows, (o: Observation) => o.SortKey())
  }

  function AsOf(rows: Rows, k: int, q: Query): Rows {
    SortObservations(Collapse(Filter(rows, SeenBy(k, q))))
  }

  /** The shared collapse loop. */
  method CollapseLatestRevisions(rows: Rows) returns (best: Rows)
    ensures best == Collapse(rows)
  {
    best := [];
    for n := 0 to |rows|
      invariant best == Collapse(rows[..n])
    {
      assert rows[..n + 1][..n] == rows[..n];
      best := Keep(best, rows[n]);
    }
    assert rows[..|rows|] == rows;
  }

  /** Where the collapse step acts: at the first row of the same fact, or at the end. */
  lemma {:induction false} SupersedeAt(best: Rows, o: Observation, i: nat)
    requires i <= |best| && forall j :: 0 <= j < i ==> best[j].LogicalKey() != o.LogicalKey()
    ensures i == |best| ==> Supersede(best, o) == best + [o]
    ensures i < |best| && best[i].LogicalKey() == o.LogicalKey() ==>
      Supersede(best, o) == if o.NewerThan(best[i]) then best[i := o] else best
  {
    if i > 0 {
      assert best == [best[0]] + best[1..];
      SupersedeAt(best[1..], o, i - 1);
    }
  }

  /** Where an upsert acts: at the row with the same identifier, or at the end. */
  lemma {:induction false} UpsertAt(rows: Rows, o: Observation, i: nat)
    requires i <= |rows| && forall j :: 0 <= j < i ==> rows[j].id != o.id
    ensures i == |rows| ==> Upsert(rows, o) == rows + [o]
    ensures i < |rows| && rows[i].id == o.id ==> Upsert(rows, o) == rows[i := o]
  {
    if i > 0 {
      UpsertAt(rows[1..], o, i - 1);
    }
  }

  /** The dictionary update inside the loop: find the kept version, compare, assign. */
  method Keep(best: Rows, o: Observation) returns (result: Rows)
    ensures result == Supersede(best, o)
  {
    var i := 0;
    while i < |best| && best[i].LogicalKey() != o.LogicalKey()
      invariant i <= |best| && forall j :: 0 <= j < i ==> best[j].LogicalKey() != o.LogicalKey()
    {
      i := i + 1;
    }
    SupersedeAt(best, o, i);
    if i == |best| {
      result := best + [o];
    } else if o.NewerThan(best[i]) {
      result := best[i := o];
    } else {
      result := best;
    }
  }

  class InMemoryStore {
    var rows: Rows

    constructor ()
      ensures rows == []
    {
      rows := [];
    }

    /** Dictionary assignment by identifier, one observation at a time. */
    method UpsertMany(os: seq<Observation>)
      modifies this
      ensures rows == UpsertAll(old(rows), os)
    {
      for n := 0 to |os|
        invariant rows == UpsertAll(old(rows), os[..n])
      {
        assert os[..n + 1][..n] == os[..n];
        Assign(os[n]);
      }
      assert os[..|os|] == os;
    }

    method Assign(o: Observation)
      modifies this
      ensures rows == Upsert(old(rows), o)
    {
      var i := 0;
      while i < |rows| && rows[i].id != o.id
        invariant i <= |rows| && rows == old(rows) && forall j :: 0 <= j < i ==> rows[j].id != o.id
      {
        i := i + 1;
      }
      UpsertAt(rows, o, i);
      rows := if i == |rows| then rows + [o] else rows[i := o];
    }

    method Query(k: int, q: Query) returns (result: Rows)
      ensures result == AsOf(rows, k, q)
    {
      var seen := Filter(rows, SeenBy(k, q));
      var best := CollapseLatestRevisions(seen);
      result := SortObservations(best);
    }
  }
}
