/**
 * The drawdown governor: a latching circuit breaker whose high-water mark is persisted in the
 * bitemporal store, so that engines rebuilt every cycle act like one long-lived breaker.
 */
module Drawdown {
  import opened Prelude
  import opened Ordering
  import opened Bitemporal
  import opened BitemporalLaws

  /** The breaker's memory: the highest equity seen, and whether it has tripped. */
  datatype Breaker = Breaker(peak: Option<real>, tripped: bool)

  const FRESH := Breaker(None, false)

  function RaisedPeak(peak: Option<real>, equity: real): real {
    match peak case None => equity case Some(p) => Max(p, equity)
  }

  predicate Breached(peak: real, equity: real, maxDrawdown: real) {
    peak > 0.0 && equity / peak - 1.0 <= -maxDrawdown
  }

  function Observe(b: Breaker, equity: real, maxDrawdown: real): Breaker {
    var peak := RaisedPeak(b.peak, equity);
    Breaker(Some(peak), b.tripped || Breached(peak, equity, maxDrawdown))
  }

  class DrawdownCircuitBreaker {
    const maxDrawdown: real
    var peak: Option<real>
    var tripped: bool

    function State(): Breaker
      reads this
    {
      Breaker(peak, tripped)
    }

    constructor (maxDrawdown: real)
      ensures this.maxDrawdown == maxDrawdown && State() == FRESH
    {
      this.maxDrawdown := maxDrawdown;
      peak, tripped := None, false;
    }

    method Seed(peak: Option<real>, tripped: bool)
      modifies this
      ensures State() == Breaker(peak, tripped)
    {
      this.peak, this.tripped := peak, tripped;
    }

    method Update(equity: real) returns (halted: bool)
      modifies this
      ensures State() == Observe(old(State()), equity, maxDrawdown)
      ensures halted == tripped
    {
      var high := if peak == None then equity else Max(peak.value, equity);
      peak := Some(high);
      if high > 0.0 && equity / high - 1.0 <= -maxDrawdown {
        tripped := true;
      }
      halted := tripped;
    }

    method Reset()
      modifies this
      ensures State() == FRESH
    {
      peak, tripped := None, false;
    }
  }

  // --------------------------------------------- what a breaker remembers

  /** A breaker that has seen these equities, from the start. */
  function Watched(equities: seq<real>, maxDrawdown: real): Breaker {
    if equities == [] then FRESH
    else Observe(Watched(equities[..|equities| - 1], maxDrawdown), equities[|equities| - 1], maxDrawdown)
  }

  /** p is the largest of the first n equities. */
  ghost predicate RunningMax(equities: seq<real>, n: nat, p: real)
    requires n <= |equities|
  {
    && (exists i :: 0 <= i < n && equities[i] == p)
    && forall i :: 0 <= i < n ==> equities[i] <= p
  }

  /** Some equity has left no more than the allowed part of the highest one up to then, if that was positive. */
  ghost predicate FellFromPeak(equities: seq<real>, maxDrawdown: real) {
    exists i, j :: 0 <= j <= i < |equities| && HighestUpTo(equities, i, j)
      && equities[j] > 0.0 && equities[i] <= Times(1.0 - maxDrawdown, equities[j])
  }

  ghost predicate HighestUpTo(equities: seq<real>, i: int, j: int)
    requires 0 <= j <= i < |equities|
  {
    forall m :: 0 <= m <= i ==> equities[m] <= equities[j]
  }

  ghost predicate SomeBreach(equities: seq<real>, maxDrawdown: real) {
    exists i, p :: 0 <= i < |equities| && RunningMax(equities, i + 1, p) && Breached(p, equities[i], maxDrawdown)
  }

  lemma {:induction false} BreakerLatches(equities: seq<real>, maxDrawdown: real)
    ensures equities != [] ==>
      var b := Watched(equities, maxDrawdown); b.peak.Some? && RunningMax(equities, |equities|, b.peak.value)
    ensures Watched(equities, maxDrawdown).tripped <==> SomeBreach(equities, maxDrawdown)
  {
    if equities != [] {
      var n := |equities| - 1;
      var init, last := equities[..n], equities[n];
      BreakerLatches(init, maxDrawdown);
      var b := Watched(equities, maxDrawdown);
      assert RunningMax(equities, n + 1, b.peak.value) by {
        if n > 0 {
          var p := Watched(init, maxDrawdown).peak.value;
          var i :| 0 <= i < n && init[i] == p;
          assert equities[i] == p;
          assert equities[n] == last;
          assert forall j :: 0 <= j < n ==> equities[j] == init[j];
        } else {
          assert equities[0] == last;
        }
      }
      if SomeBreach(init, maxDrawdown) {
        var i, p :| 0 <= i < n && RunningMax(init, i + 1, p) && Breached(p, init[i], maxDrawdown);
        SamePrefixMax(equities, n, i + 1, p);
        assert Breached(p, equities[i], maxDrawdown);
      }
      if SomeBreach(equities, maxDrawdown) {
        var i, p :| 0 <= i < |equities| && RunningMax(equities, i + 1, p) && Breached(p, equities[i], maxDrawdown);
        if i < n {
          SamePrefixMax(equities, n, i + 1, p);
          assert Breached(p, init[i], maxDrawdown);
        } else {
          assert p == b.peak.value;
        }
      }
    }
  }

  lemma FellIffBreached(equities: seq<real>, maxDrawdown: real)
    ensures FellFromPeak(equities, maxDrawdown) <==> SomeBreach(equities, maxDrawdown)
  {
    if FellFromPeak(equities, maxDrawdown) {
      var i, j :| 0 <= j <= i < |equities| && HighestUpTo(equities, i, j)
        && equities[j] > 0.0 && equities[i] <= Times(1.0 - maxDrawdown, equities[j]);
      FellIff(equities[i], equities[j], maxDrawdown);
      assert RunningMax(equities, i + 1, equities[j]) && Breached(equities[j], equities[i], maxDrawdown);
    }
    if SomeBreach(equities, maxDrawdown) {
      var i, p :| 0 <= i < |equities| && RunningMax(equities, i + 1, p) && Breached(p, equities[i], maxDrawdown);
      var j :| 0 <= j < i + 1 && equities[j] == p;
      FellIff(equities[i], p, maxDrawdown);
      assert HighestUpTo(equities, i, j);
    }
  }

  /**
   * The peak is the running maximum, and the breaker is tripped exactly if some equity fell by the limit from
   * its peak.
   */
  lemma BreakerMeaning(equities: seq<real>, maxDrawdown: real)
    ensures equities != [] ==>
      var b := Watched(equities, maxDrawdown); b.peak.Some? && RunningMax(equities, |equities|, b.peak.value)
    ensures Watched(equities, maxDrawdown).tripped <==> FellFromPeak(equities, maxDrawdown)
  {
    BreakerLatches(equities, maxDrawdown);
    FellIffBreached(equities, maxDrawdown);
  }

  lemma SamePrefixMax(equities: seq<real>, n: nat, m: nat, p: real)
    requires m <= n <= |equities|
    ensures RunningMax(equities[..n], m, p) <==> RunningMax(equities, m, p)
  {
    if RunningMax(equities, m, p) {
      var i :| 0 <= i < m && equities[i] == p;
      assert equities[..n][i] == p;
    }
    if RunningMax(equities[..n], m, p) {
      var i :| 0 <= i < m && equities[..n][i] == p;
      assert equities[i] == p;
      assert forall j :: 0 <= j < m ==> equities[j] == equities[..n][j];
    }
  }

  // ------------------------------------------------------- persisted state

  const STATE_DATASET := "risk.drawdown_state"

  /** The row that records the breaker as of a rebalance. */
  function StateRow(asOf: int, b: Breaker): Observation {
    Observation("execution", STATE_DATASET, "portfolio", "PORTFOLIO", Some("drawdown"),
      asOf, asOf, 0, Value.Drawdown(b.peak, b.tripped), Random(0)).WithDeterministicId()
  }

  /** The first row with the greatest event time. */
  function NewestEvent(rows: Rows): Observation
    requires rows != []
  {
    if |rows| == 1 then rows[0]
    else
      var best := NewestEvent(rows[..|rows| - 1]);
      if rows[|rows| - 1].eventTime > best.eventTime then rows[|rows| - 1] else best
  }

  /** A peak of zero reads back as no state at all. */
  function Restored(o: Observation): Breaker {
    match o.value
    case Drawdown(Some(p), tripped) => if p == 0.0 then FRESH else Breaker(Some(p), tripped)
    case _ => FRESH
  }

  /** What a newly built engine's breaker starts from. */
  function Load(rows: Rows, now: int): Breaker {
    var found := AsOf(rows, now, OfDataset(STATE_DATASET));
    if found == [] then FRESH else Restored(NewestEvent(found))
  }

  /** The states on record in a store, by the time of the rebalance that wrote them. */
  type Record = map<int, Breaker>

  /** The store's rows in the state dataset are exactly the rows of the record. */
  ghost predicate Recorded(rows: Rows, record: Record) {
    && WellFormed(rows)
    && forall o :: o in rows && o.dataset == STATE_DATASET <==>
      o.eventTime in record && o == StateRow(o.eventTime, record[o.eventTime])
  }

  /** Saving at a time that was written before overwrites what it wrote. */
  lemma SavingUpdatesTheRecord(rows: Rows, record: Record, asOf: int, b: Breaker)
    requires Recorded(rows, record)
    ensures Recorded(Upsert(rows, StateRow(asOf, b)), record[asOf := b])
  {
    var o := StateRow(asOf, b);
    UpsertElements(rows, o);
    forall p | p in rows && p.dataset == STATE_DATASET ensures p.id != o.id <==> p.eventTime != asOf {
    }
  }

  /** Ingestion into any other dataset leaves the record alone. */
  lemma OtherDatasetsKeepTheRecord(rows: Rows, record: Record, o: Observation)
    requires Recorded(rows, record) && o.dataset != STATE_DATASET && o.id == o.DeterministicId()
    ensures Recorded(Upsert(rows, o), record)
  {
    UpsertElements(rows, o);
    forall p | p in rows && p.dataset == STATE_DATASET ensures p.id != o.id {
    }
  }

  /** t is the latest time on record that is not after now. */
  ghost predicate LatestOnRecord(record: Record, now: int, t: int) {
    t in record && t <= now && forall u :: u in record && u <= now ==> u <= t
  }

  lemma {:induction false} NewestEventIsGreatest(rows: Rows)
    requires rows != []
    ensures NewestEvent(rows) in rows
    ensures forall o :: o in rows ==> o.eventTime <= NewestEvent(rows).eventTime
  {
    if |rows| > 1 {
      NewestEventIsGreatest(rows[..|rows| - 1]);
      assert rows == rows[..|rows| - 1] + [rows[|rows| - 1]];
    }
  }

  lemma AsOfReadsTheRecord(rows: Rows, record: Record, now: int)
    requires Recorded(rows, record)
    ensures forall o :: o in AsOf(rows, now, OfDataset(STATE_DATASET)) <==>
      o.eventTime in record && o.eventTime <= now && o == StateRow(o.eventTime, record[o.eventTime])
  {
    var q := OfDataset(STATE_DATASET);
    AsOfIsLatestKnown(rows, now, q);
    forall o ensures LatestKnown(rows, now, q, o) <==>
      o.eventTime in record && o.eventTime <= now && o == StateRow(o.eventTime, record[o.eventTime])
    {
    }
  }

  /**
   * A new engine restores the state of the latest rebalance on record as of its clock, or starts fresh if
   * there is none.
   */
  lemma LoadRestoresLatest(rows: Rows, record: Record, now: int, t: int)
    requires Recorded(rows, record)
    ensures (forall u :: u in record ==> u > now) ==> Load(rows, now) == FRESH
    ensures LatestOnRecord(record, now, t) ==> Load(rows, now) == Restored(StateRow(t, record[t]))
  {
    var found := AsOf(rows, now, OfDataset(STATE_DATASET));
    AsOfReadsTheRecord(rows, record, now);
    if found != [] {
      NewestEventIsGreatest(found);
      assert NewestEvent(found) in found;
    }
    if LatestOnRecord(record, now, t) {
      assert StateRow(t, record[t]) in found;
    }
  }
}
