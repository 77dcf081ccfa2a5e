/** Which fresh insider clusters the sleeve may open. */
module InsiderEvents {
  import opened Prelude
  import opened Ordering

  const DAY := 86400

  /** A detected cluster: there is at most one a name. */
  datatype Cluster = Cluster(entityId: string, knowledgeTime: int, nBuys: int)

  datatype Entry = Entry(symbol: string, knowledgeTime: int, exitBy: int, nBuys: int, expectedCar: real)

  ghost predicate OnePerName(clusters: seq<Cluster>) {
    forall i, j :: 0 <= i < j < |clusters| ==> clusters[i].entityId != clusters[j].entityId
  }

  function NewestFirst(c: Cluster): SortKey {
    [Number(-c.knowledgeTime)]
  }

  lemma NewestFirstOrder(a: Cluster, b: Cluster)
    ensures Le(NewestFirst(a), NewestFirst(b)) <==> a.knowledgeTime >= b.knowledgeTime
  {
    NumberKeyOrder(-a.knowledgeTime, -b.knowledgeTime);
  }

  /** Not yet held, and public for no more than the given number of whole days. */
  predicate Eligible(c: Cluster, asOf: int, freshnessDays: int, held: set<string>) {
    c.entityId !in held && (asOf - c.knowledgeTime) / DAY <= freshnessDays
  }

  function EligibleTo(asOf: int, freshnessDays: int, held: set<string>): Cluster -> bool {
    (c: Cluster) => Eligible(c, asOf, freshnessDays, held)
  }

  function EntryFor(c: Cluster, asOf: int, holdDays: int, car: real): Entry {
    Entry(c.entityId, c.knowledgeTime, asOf + holdDays * DAY, c.nBuys, car)
  }

  function EntriesFor(cs: seq<Cluster>, asOf: int, holdDays: int, car: real): (es: seq<Entry>)
    ensures |es| == |cs|
  {
    seq(|cs|, i requires 0 <= i < |cs| => EntryFor(cs[i], asOf, holdDays, car))
  }

  /** The first n of a list, or all of it. */
  function Take<T>(s: seq<T>, n: int): (t: seq<T>)
    ensures t <= s && |t| == if 0 <= n < |s| then n else if n < 0 then 0 else |s|
  {
    if n < 0 then [] else if n < |s| then s[..n] else s
  }

  /** The cap is applied after an entry has been taken: it never stops the first one. */
  function Cap(maxNames: int): int {
    if maxNames > 1 then maxNames else 1
  }

  /** The eligible clusters, newest first, ties as detected. */
  function Candidates(clusters: seq<Cluster>, asOf: int, freshnessDays: int, held: set<string>): seq<Cluster> {
    Filter(Sort(clusters, NewestFirst), EligibleTo(asOf, freshnessDays, held))
  }

  lemma {:induction false} FilterGrows<T>(s: seq<T>, n: nat, p: T -> bool)
    requires n <= |s|
    ensures Filter(s[..n], p) <= Filter(s, p)
    decreases |s| - n
  {
    if n == |s| {
      assert s[..n] == s;
    } else {
      FilterGrows(s, n + 1, p);
      FilterStep(s, n, p);
    }
  }

  lemma CapReached(s: seq<Cluster>, n: nat, p: Cluster -> bool, cap: int)
    requires n <= |s| && |Filter(s[..n], p)| == cap
    ensures Filter(s[..n], p) == Take(Filter(s, p), cap)
  {
    FilterGrows(s, n, p);
  }

  lemma CapNotReached(s: seq<Cluster>, p: Cluster -> bool, cap: int)
    requires |Filter(s, p)| < cap
    ensures Filter(s, p) == Take(Filter(s, p), cap)
  {
  }

  lemma EntriesGrow(s: seq<Cluster>, i: nat, p: Cluster -> bool, asOf: int, holdDays: int, car: real)
    requires i < |s|
    ensures EntriesFor(Filter(s[..i + 1], p), asOf, holdDays, car) ==
      if p(s[i]) then EntriesFor(Filter(s[..i], p), asOf, holdDays, car) + [EntryFor(s[i], asOf, holdDays, car)]
      else EntriesFor(Filter(s[..i], p), asOf, holdDays, car)
  {
    FilterStep(s, i, p);
  }

  /** Nothing unless the gate holds a positive drift; else the newest eligible clusters up to the cap. */
  method InsiderClusterEntries(clusters: seq<Cluster>, asOf: int, meanCar: Option<real>, holdDays: int, maxNames: int,
                               freshnessDays: int, held: set<string>) returns (out: seq<Entry>)
    ensures meanCar.None? || meanCar.value <= 0.0 ==> out == []
    ensures meanCar.Some? && meanCar.value > 0.0 ==>
      out == EntriesFor(
        Take(Candidates(clusters, asOf, freshnessDays, held), Cap(maxNames)), asOf, holdDays, meanCar.value)
    ensures meanCar.Some? && meanCar.value > 0.0 ==>
      Enters(out, clusters, asOf, meanCar.value, holdDays, maxNames, freshnessDays, held)
  {
    if meanCar.Some? {
      ChosenAreEntered(clusters, asOf, meanCar.value, holdDays, maxNames, freshnessDays, held);
    }
    if meanCar.None? || meanCar.value <= 0.0 {
      return [];
    }
    var sorted := Sort(clusters, NewestFirst);
    ghost var p := EligibleTo(asOf, freshnessDays, held);
    out := [];
    for i := 0 to |sorted|
      invariant |out| < Cap(maxNames)
      invariant out == EntriesFor(Filter(sorted[..i], p), asOf, holdDays, meanCar.value)
    {
      EntriesGrow(sorted, i, p, asOf, holdDays, meanCar.value);
      var e := sorted[i];
      if e.entityId in held {
        continue;
      }
      if (asOf - e.knowledgeTime) / DAY > freshnessDays {
        continue;
      }
      out := out + [EntryFor(e, asOf, holdDays, meanCar.value)];
      if |out| >= maxNames {
        CapReached(sorted, i + 1, p, Cap(maxNames));
        return;
      }
    }
    assert sorted[..|sorted|] == sorted;
    CapNotReached(sorted, p, Cap(maxNames));
  }

  // ------------------------------------------------------------------- its laws

  /** The chosen clusters. */
  function Chosen(clusters: seq<Cluster>, asOf: int, freshnessDays: int, held: set<string>,
                  maxNames: int): seq<Cluster>
  {
    Take(Candidates(clusters, asOf, freshnessDays, held), Cap(maxNames))
  }

  lemma SortedNewestFirst(clusters: seq<Cluster>)
    ensures var sorted := Sort(clusters, NewestFirst);
      forall i, j :: 0 <= i < j < |sorted| ==> sorted[i].knowledgeTime >= sorted[j].knowledgeTime
  {
    var sorted := Sort(clusters, NewestFirst);
    SortSorts(clusters, NewestFirst);
    forall i, j | 0 <= i < j < |sorted| ensures sorted[i].knowledgeTime >= sorted[j].knowledgeTime {
      NewestFirstOrder(sorted[i], sorted[j]);
    }
  }

  lemma {:induction false} InsertKeepsOnePerName(s: seq<Cluster>, x: Cluster)
    requires OnePerName(s) && forall i :: 0 <= i < |s| ==> s[i].entityId != x.entityId
    ensures OnePerName(Insert(s, x, NewestFirst))
  {
    if s != [] && !Le(NewestFirst(s[|s| - 1]), NewestFirst(x)) {
      var init, last := s[..|s| - 1], s[|s| - 1];
      InsertKeepsOnePerName(init, x);
      InsertKeepsElements(init, x, NewestFirst);
      var rest := Insert(init, x, NewestFirst);
      forall i | 0 <= i < |rest| ensures rest[i].entityId != last.entityId {
        assert rest[i] in multiset(rest);
        assert rest[i] == x || rest[i] in init;
      }
    }
  }

  lemma {:induction false} SortKeepsOnePerName(s: seq<Cluster>)
    requires OnePerName(s)
    ensures OnePerName(Sort(s, NewestFirst))
  {
    if s != [] {
      var init, last := s[..|s| - 1], s[|s| - 1];
      SortKeepsOnePerName(init);
      SortKeepsElements(init, NewestFirst);
      forall i | 0 <= i < |Sort(init, NewestFirst)| ensures Sort(init, NewestFirst)[i].entityId != last.entityId {
        assert Sort(init, NewestFirst)[i] in init;
      }
      InsertKeepsOnePerName(Sort(init, NewestFirst), last);
    }
  }

  /** The chosen are eligible, of different names, and no more than the cap. */
  lemma ChosenAreEligible(clusters: seq<Cluster>, asOf: int, freshnessDays: int, held: set<string>, maxNames: int)
    requires OnePerName(clusters)
    ensures var chosen := Chosen(clusters, asOf, freshnessDays, held, maxNames);
      && |chosen| <= Cap(maxNames) && OnePerName(chosen)
      && forall c :: c in chosen ==> c in clusters && Eligible(c, asOf, freshnessDays, held)
  {
    var p, sorted := EligibleTo(asOf, freshnessDays, held), Sort(clusters, NewestFirst);
    SortKeepsOnePerName(clusters);
    SortKeepsElements(clusters, NewestFirst);
    FilterElements(sorted, p);
    FilterKeepsPairs(sorted, p, (a: Cluster, b: Cluster) => a.entityId != b.entityId);
    var all, chosen := Filter(sorted, p), Chosen(clusters, asOf, freshnessDays, held, maxNames);
    forall c | c in chosen ensures c in all {
      var i :| 0 <= i < |chosen| && chosen[i] == c;
      assert all[i] == c;
    }
  }

  lemma CandidatesNewestFirst(clusters: seq<Cluster>, asOf: int, freshnessDays: int, held: set<string>)
    ensures var all := Candidates(clusters, asOf, freshnessDays, held);
      && (forall i, j :: 0 <= i < j < |all| ==> all[i].knowledgeTime >= all[j].knowledgeTime)
      && (forall c :: c in all <==> c in clusters && Eligible(c, asOf, freshnessDays, held))
  {
    var p, sorted := EligibleTo(asOf, freshnessDays, held), Sort(clusters, NewestFirst);
    SortKeepsElements(clusters, NewestFirst);
    SortedNewestFirst(clusters);
    FilterElements(sorted, p);
    FilterKeepsPairs(sorted, p, (a: Cluster, b: Cluster) => a.knowledgeTime >= b.knowledgeTime);
  }

  lemma TakeIsNewest(all: seq<Cluster>, n: int, c: Cluster)
    requires n >= 0 && forall i, j :: 0 <= i < j < |all| ==> all[i].knowledgeTime >= all[j].knowledgeTime
    requires c in all
    ensures
      || c in Take(all, n)
      || (|Take(all, n)| == n && forall d :: d in Take(all, n) ==> d.knowledgeTime >= c.knowledgeTime)
  {
    var taken := Take(all, n);
    var i :| 0 <= i < |all| && all[i] == c;
    if i < |taken| {
      assert taken[i] == c;
    }
  }

  /** Nothing eligible is passed over for something older. */
  lemma ChosenAreNewest(clusters: seq<Cluster>, asOf: int, freshnessDays: int, held: set<string>, maxNames: int,
                        c: Cluster)
    requires c in clusters && Eligible(c, asOf, freshnessDays, held)
    ensures var chosen := Chosen(clusters, asOf, freshnessDays, held, maxNames);
      c in chosen || (|chosen| == Cap(maxNames) && forall d :: d in chosen ==> d.knowledgeTime >= c.knowledgeTime)
  {
    CandidatesNewestFirst(clusters, asOf, freshnessDays, held);
    TakeIsNewest(Candidates(clusters, asOf, freshnessDays, held), Cap(maxNames), c);
  }

  // ------------------------------------------------- the entries, over the clusters

  /** Not held, and public for less than a day more than the whole days allowed. */
  predicate IsFresh(c: Cluster, asOf: int, freshnessDays: int, held: set<string>) {
    c.entityId !in held && asOf - c.knowledgeTime < (freshnessDays + 1) * 86400
  }

  lemma EligibleIff(c: Cluster, asOf: int, freshnessDays: int, held: set<string>)
    ensures Eligible(c, asOf, freshnessDays, held) <==> IsFresh(c, asOf, freshnessDays, held)
  {
    var age := asOf - c.knowledgeTime;
    assert (age / DAY) * 86400 <= age < (age / DAY + 1) * 86400;
  }

  /** The entry into a cluster: to be held so many days from now. */
  predicate IsEntry(e: Entry, c: Cluster, asOf: int, holdDays: int, car: real) {
    && e.symbol == c.entityId && e.knowledgeTime == c.knowledgeTime && e.nBuys == c.nBuys
    && e.exitBy == asOf + holdDays * 86400 && e.expectedCar == car
  }

  /** Entries into fresh clusters only, newest first; none is passed over unless the cap is full of no older ones. */
  ghost predicate Enters(out: seq<Entry>, clusters: seq<Cluster>, asOf: int, car: real, holdDays: int, maxNames: int,
                         freshnessDays: int, held: set<string>)
  {
    && |out| <= (if maxNames > 1 then maxNames else 1)
    && (forall i, j :: 0 <= i < j < |out| ==> out[i].knowledgeTime >= out[j].knowledgeTime)
    && (forall e :: e in out ==> EntersOne(e, clusters, asOf, car, holdDays, freshnessDays, held))
    && (forall c :: c in clusters && IsFresh(c, asOf, freshnessDays, held) ==>
          || (exists e :: e in out && IsEntry(e, c, asOf, holdDays, car))
          || (|out| == (if maxNames > 1 then maxNames else 1)
              && forall e :: e in out ==> e.knowledgeTime >= c.knowledgeTime))
  }

  ghost predicate EntersOne(e: Entry, clusters: seq<Cluster>, asOf: int, car: real, holdDays: int, freshnessDays: int,
                            held: set<string>)
  {
    exists c :: c in clusters && IsFresh(c, asOf, freshnessDays, held) && IsEntry(e, c, asOf, holdDays, car)
  }

  lemma EntryInto(cs: seq<Cluster>, asOf: int, holdDays: int, car: real, c: Cluster) returns (e: Entry)
    requires c in cs
    ensures e in EntriesFor(cs, asOf, holdDays, car) && IsEntry(e, c, asOf, holdDays, car)
  {
    var i :| 0 <= i < |cs| && cs[i] == c;
    e := EntriesFor(cs, asOf, holdDays, car)[i];
  }

  /** What is chosen is entered, and it is what should be. */
  lemma ChosenAreEntered(clusters: seq<Cluster>, asOf: int, car: real, holdDays: int, maxNames: int,
                         freshnessDays: int, held: set<string>)
    ensures Enters(EntriesFor(Chosen(clusters, asOf, freshnessDays, held, maxNames), asOf, holdDays, car), clusters,
                   asOf, car, holdDays, maxNames, freshnessDays, held)
  {
    var all, chosen :=
      Candidates(clusters, asOf, freshnessDays, held), Chosen(clusters, asOf, freshnessDays, held, maxNames);
    var out := EntriesFor(chosen, asOf, holdDays, car);
    CandidatesNewestFirst(clusters, asOf, freshnessDays, held);
    forall e | e in out ensures EntersOne(e, clusters, asOf, car, holdDays, freshnessDays, held) {
      var i :| 0 <= i < |out| && out[i] == e;
      assert all[i] in all && chosen[i] == all[i];
      EligibleIff(chosen[i], asOf, freshnessDays, held);
      assert IsEntry(e, chosen[i], asOf, holdDays, car);
    }
    forall c | c in clusters && IsFresh(c, asOf, freshnessDays, held)
      ensures || (exists e :: e in out && IsEntry(e, c, asOf, holdDays, car))
              || (|out| == Cap(maxNames) && forall e :: e in out ==> e.knowledgeTime >= c.knowledgeTime)
    {
      EligibleIff(c, asOf, freshnessDays, held);
      ChosenAreNewest(clusters, asOf, freshnessDays, held, maxNames, c);
      if c in chosen {
        var e := EntryInto(chosen, asOf, holdDays, car, c);
      }
    }
  }
}
