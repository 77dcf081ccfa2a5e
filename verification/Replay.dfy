/** The learning replay: history is revealed step by step into a store that only ever knows the past. */
module Replay {
  import opened Prelude
  import opened Ordering
  import opened Bitemporal
  import opened BitemporalLaws
  import opened Grading
  import Backtest

  // ------------------------------------------------------------------ revealing

  function KnowledgeKey(o: Observation): SortKey {
    [Number(o.knowledgeTime)]
  }

  /** The history in the order it becomes known. */
  function Revealed(history: seq<Observation>): seq<Observation> {
    Sort(history, KnowledgeKey)
  }

  lemma KnowledgeKeyOrder(a: Observation, b: Observation)
    ensures Le(KnowledgeKey(a), KnowledgeKey(b)) <==> a.knowledgeTime <= b.knowledgeTime
  {
    NumberKeyOrder(a.knowledgeTime, b.knowledgeTime);
  }

  function KnownBy(t: int): Observation -> bool {
    (o: Observation) => o.knowledgeTime <= t
  }

  /** The observations of a history that are known by t, in the order they became known. */
  function Prefix(history: seq<Observation>, t: int): seq<Observation> {
    Revealed(Filter(history, KnownBy(t)))
  }

  ghost predicate InKnowledgeOrder(s: seq<Observation>) {
    forall i, j :: 0 <= i < j < |s| ==> s[i].knowledgeTime <= s[j].knowledgeTime
  }

  lemma RevealedInOrder(history: seq<Observation>)
    ensures InKnowledgeOrder(Revealed(history))
    ensures forall o :: o in Revealed(history) <==> o in history
  {
    SortSorts(history, KnowledgeKey);
    SortKeepsElements(history, KnowledgeKey);
    var s := Revealed(history);
    forall i, j | 0 <= i < j < |s| ensures s[i].knowledgeTime <= s[j].knowledgeTime {
      KnowledgeKeyOrder(s[i], s[j]);
    }
  }

  /** Insertion before a row that became known later. */
  lemma InsertBefore(s: seq<Observation>, last: Observation, x: Observation)
    requires x.knowledgeTime < last.knowledgeTime
    ensures Insert(s + [last], x, KnowledgeKey) == Insert(s, x, KnowledgeKey) + [last]
  {
    KnowledgeKeyOrder(last, x);
    assert (s + [last])[..|s|] == s;
  }

  lemma InsertAfter(s: seq<Observation>, x: Observation)
    requires s != [] ==> s[|s| - 1].knowledgeTime <= x.knowledgeTime
    ensures Insert(s, x, KnowledgeKey) == s + [x]
  {
    if s != [] {
      KnowledgeKeyOrder(s[|s| - 1], x);
    }
  }

  /** Inserting a row not yet known by t leaves what is known by t as it was; otherwise it inserts it there. */
  ghost predicate Commutes(s: seq<Observation>, x: Observation, t: int) {
    Filter(Insert(s, x, KnowledgeKey), KnownBy(t))
      == if x.knowledgeTime <= t then Insert(Filter(s, KnownBy(t)), x, KnowledgeKey) else Filter(s, KnownBy(t))
  }

  lemma CommutesAtEnd(s: seq<Observation>, x: Observation, t: int)
    requires InKnowledgeOrder(s) && (s != [] ==> s[|s| - 1].knowledgeTime <= x.knowledgeTime)
    ensures Commutes(s, x, t)
  {
    InsertAfter(s, x);
    FilterOfAppend(s, x, KnownBy(t));
    FilterEndsUpTo(s, x, t);
    InsertAfter(Filter(s, KnownBy(t)), x);
  }

  lemma CommutesBefore(s: seq<Observation>, last: Observation, x: Observation, t: int)
    requires x.knowledgeTime < last.knowledgeTime && Commutes(s, x, t)
    ensures Commutes(s + [last], x, t)
  {
    var known := Filter(s, KnownBy(t));
    InsertBefore(s, last, x);
    FilterOfAppend(Insert(s, x, KnowledgeKey), last, KnownBy(t));
    FilterOfAppend(s, last, KnownBy(t));
    if last.knowledgeTime <= t {
      InsertBefore(known, last, x);
    } else {
      assert Filter(s + [last], KnownBy(t)) == known;
    }
  }

  lemma {:induction false} InsertCommutes(s: seq<Observation>, x: Observation, t: int)
    requires InKnowledgeOrder(s)
    ensures Commutes(s, x, t)
    decreases |s|
  {
    if s == [] || s[|s| - 1].knowledgeTime <= x.knowledgeTime {
      CommutesAtEnd(s, x, t);
    } else {
      InsertCommutes(s[..|s| - 1], x, t);
      CommutesBefore(s[..|s| - 1], s[|s| - 1], x, t);
      assert s == s[..|s| - 1] + [s[|s| - 1]];
    }
  }

  lemma FilterEndsUpTo(s: seq<Observation>, x: Observation, t: int)
    requires InKnowledgeOrder(s) && (s != [] ==> s[|s| - 1].knowledgeTime <= x.knowledgeTime)
    ensures var known := Filter(s, KnownBy(t)); known != [] ==> known[|known| - 1].knowledgeTime <= x.knowledgeTime
  {
    var known := Filter(s, KnownBy(t));
    FilterElements(s, KnownBy(t));
    if known != [] {
      assert known[|known| - 1] in known;
    }
  }

  lemma RevealedOfAppend(s: seq<Observation>, x: Observation)
    ensures Revealed(s + [x]) == Insert(Revealed(s), x, KnowledgeKey)
  {
    assert (s + [x])[..|s|] == s;
  }

  /** What one more row of the history adds to what is known by t. */
  lemma OneMorePrefix(history: seq<Observation>, t: int)
    requires history != []
    ensures var init, last := history[..|history| - 1], history[|history| - 1];
      && Revealed(history) == Insert(Revealed(init), last, KnowledgeKey)
      && Prefix(history, t)
        == if last.knowledgeTime <= t then Insert(Prefix(init, t), last, KnowledgeKey) else Prefix(init, t)
  {
    var init, last := history[..|history| - 1], history[|history| - 1];
    var known := Filter(init, KnownBy(t));
    if last.knowledgeTime <= t {
      assert Filter(history, KnownBy(t)) == known + [last];
      RevealedOfAppend(known, last);
    } else {
      assert Filter(history, KnownBy(t)) == known;
    }
  }

  /** Sorting commutes with cutting off at a knowledge time. */
  lemma {:induction false} RevealedPrefix(history: seq<Observation>, t: int)
    ensures Filter(Revealed(history), KnownBy(t)) == Prefix(history, t)
  {
    if history != [] {
      var init, last := history[..|history| - 1], history[|history| - 1];
      RevealedPrefix(init, t);
      RevealedInOrder(init);
      InsertCommutes(Revealed(init), last, t);
      OneMorePrefix(history, t);
    }
  }

  /** How far a cursor that stops at the first row not known by t gets. */
  lemma {:induction false} PrefixOfOrdered(s: seq<Observation>, t: int, cursor: nat)
    requires InKnowledgeOrder(s) && cursor <= |s|
    requires forall i :: 0 <= i < cursor ==> s[i].knowledgeTime <= t
    requires cursor < |s| ==> s[cursor].knowledgeTime > t
    ensures s[..cursor] == Filter(s, KnownBy(t))
  {
    if s != [] {
      var init, last := s[..|s| - 1], s[|s| - 1];
      FilterOfAppend(init, last, KnownBy(t));
      assert s == init + [last];
      if cursor == |s| {
        assert s[..cursor] == s;
        AllKnown(s, t);
      } else {
        assert last.knowledgeTime > t;
        PrefixOfOrdered(init, t, cursor);
        assert s[..cursor] == init[..cursor];
      }
    }
  }

  lemma AllKnown(s: seq<Observation>, t: int)
    requires forall i :: 0 <= i < |s| ==> s[i].knowledgeTime <= t
    ensures Filter(s, KnownBy(t)) == s
  {
    FilterOfAll(s, KnownBy(t));
  }

  // ------------------------------------------------- what the store then contains

  function SameId(id: Id): Observation -> bool {
    (o: Observation) => o.id == id
  }

  /** The last row written under an identifier. */
  ghost predicate WrittenLast(written: seq<Observation>, o: Observation) {
    written != [] && written[|written| - 1] == o
  }

  lemma OneMoreWrite(rows: Rows, written: seq<Observation>, last: Observation, o: Observation)
    requires DistinctIds(rows) && (o in rows <==> WrittenLast(written, o))
    ensures o in Upsert(rows, last) <==> WrittenLast(written + if last.id == o.id then [last] else [], o)
  {
    UpsertElements(rows, last);
  }

  /** Of several rows under one identifier, the one written last is kept. */
  lemma {:induction false} LastWriteIsKept(os: seq<Observation>, o: Observation)
    ensures DistinctIds(UpsertAll([], os))
    ensures o in UpsertAll([], os) <==> WrittenLast(Filter(os, SameId(o.id)), o)
  {
    if os != [] {
      var init, last := os[..|os| - 1], os[|os| - 1];
      LastWriteIsKept(init, o);
      UpsertElements(UpsertAll([], init), last);
      FilterOfLast(os, SameId(o.id));
      OneMoreWrite(UpsertAll([], init), Filter(init, SameId(o.id)), last, o);
    }
  }

  /** Rows with one content-derived identifier became known together. */
  lemma OneIdOneKnowledgeTime(history: seq<Observation>, id: Id)
    requires Deterministic(history)
    ensures InOrder(history, KnowledgeKey, SameId(id))
  {
    forall i, j | 0 <= i < j < |history| && history[i].id == id && history[j].id == id
      ensures Le(KnowledgeKey(history[i]), KnowledgeKey(history[j]))
    {
      KnowledgeKeyOrder(history[i], history[j]);
    }
  }

  /** What one more row adds to the rows under one identifier that are known by t. */
  lemma OneMoreOfOneId(history: seq<Observation>, o: Observation, t: int)
    requires history != []
    requires var last := history[|history| - 1]; last.id == o.id ==> last.knowledgeTime == o.knowledgeTime
    ensures var init, last := history[..|history| - 1], history[|history| - 1];
      var more := if last.id == o.id then [last] else [];
      && Filter(history, SameId(o.id)) == Filter(init, SameId(o.id)) + more
      && Filter(Filter(history, KnownBy(t)), SameId(o.id))
        == Filter(Filter(init, KnownBy(t)), SameId(o.id)) + if o.knowledgeTime <= t then more else []
  {
    var init, last := history[..|history| - 1], history[|history| - 1];
    var known := Filter(init, KnownBy(t));
    FilterOfAppend(known, last, SameId(o.id));
    if last.knowledgeTime <= t {
      assert Filter(history, KnownBy(t)) == known + [last];
    } else {
      assert Filter(history, KnownBy(t)) == known;
    }
  }

  lemma {:induction false} KnownOfOneId(history: seq<Observation>, o: Observation, t: int)
    requires Deterministic(history) && o.id == o.DeterministicId()
    ensures Filter(Filter(history, KnownBy(t)), SameId(o.id))
      == if o.knowledgeTime <= t then Filter(history, SameId(o.id)) else []
  {
    if history != [] {
      var init, last := history[..|history| - 1], history[|history| - 1];
      KnownOfOneId(init, o, t);
      assert last.id == last.DeterministicId();
      OneMoreOfOneId(history, o, t);
    }
  }

  /** What is known by t, in the order it became known, holds all rows under an identifier known by then, or none. */
  lemma PrefixOfOneId(history: seq<Observation>, o: Observation, t: int)
    requires Deterministic(history) && o.id == o.DeterministicId()
    ensures Filter(Prefix(history, t), SameId(o.id))
      == if o.knowledgeTime <= t then Filter(history, SameId(o.id)) else []
  {
    var known := Filter(history, KnownBy(t));
    FilterElements(history, KnownBy(t));
    OneIdOneKnowledgeTime(known, o.id);
    SortIsStable(known, KnowledgeKey, SameId(o.id));
    KnownOfOneId(history, o, t);
  }

  /**
   * Ingesting what is known by t, in the order it became known, leaves exactly the rows of the whole history
   * known by t.
   */
  lemma RevealedRowsAreTheKnownOnes(history: seq<Observation>, t: int, o: Observation)
    requires Deterministic(history) && o.id == o.DeterministicId()
    ensures o in UpsertAll([], Prefix(history, t)) <==> o in UpsertAll([], history) && o.knowledgeTime <= t
  {
    LastWriteIsKept(Prefix(history, t), o);
    LastWriteIsKept(history, o);
    PrefixOfOneId(history, o, t);
  }
}
