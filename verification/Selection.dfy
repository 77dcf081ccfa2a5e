/** Which names a daily cycle holds: entry, the wider exit band, and the explicit exits. */
module Selection {
  import opened Prelude
  import opened Ordering
  import RiskLimits

  /** Names, best first, each ranked once. */
  ghost predicate Distinct(names: seq<string>) {
    forall i, j :: 0 <= i < j < |names| ==> names[i] != names[j]
  }

  function Head(names: seq<string>, k: nat): (head: seq<string>)
    ensures head <= names && |head| == if k < |names| then k else |names|
  {
    if k < |names| then names[..k] else names
  }

  function Among(names: set<string>): string -> bool {
    (s: string) => s in names
  }

  function NotAmong(names: set<string>): string -> bool {
    (s: string) => s !in names
  }

  function SetOf(names: seq<string>): set<string> {
    set s | s in names
  }

  /** Held names inside the exit band, best first, then fresh entrants; at most cap of them. */
  function SelectWithHysteresis(ranked: seq<string>, held: set<string>, enterK: nat, exitK: nat,
                                cap: Option<nat>): seq<string>
  {
    var keep := SetOf(Head(ranked, exitK));
    var heldKept := Filter(ranked, Among(held * keep));
    var selected := heldKept + Filter(Head(ranked, enterK), NotAmong(held));
    if cap.Some? then Head(selected, cap.value) else selected
  }

  // ---------------------------------------------------------- what is selected

  lemma {:induction false} FilterDistinct(names: seq<string>, p: string -> bool)
    requires Distinct(names)
    ensures Distinct(Filter(names, p))
    ensures forall s :: s in Filter(names, p) <==> s in names && p(s)
  {
    if names != [] {
      var init, last := names[..|names| - 1], names[|names| - 1];
      FilterDistinct(init, p);
      assert names == init + [last];
      forall i | 0 <= i < |Filter(init, p)| ensures Filter(init, p)[i] != last {
        assert Filter(init, p)[i] in init;
      }
    }
  }

  lemma HeadDistinct(names: seq<string>, k: nat)
    requires Distinct(names)
    ensures Distinct(Head(names, k))
    ensures forall s :: s in Head(names, k) ==> s in names
  {
    forall s | s in Head(names, k) ensures s in names {
      var i :| 0 <= i < |Head(names, k)| && Head(names, k)[i] == s;
      assert names[i] == s;
    }
  }

  lemma HeadsNest(names: seq<string>, j: nat, k: nat)
    requires j <= k
    ensures forall s :: s in Head(names, j) ==> s in Head(names, k)
  {
    forall s | s in Head(names, j) ensures s in Head(names, k) {
      var i :| 0 <= i < |Head(names, j)| && Head(names, j)[i] == s;
      assert Head(names, k)[i] == s;
    }
  }

  /** The held names that stay and the entrants, before the cap. */
  function Kept(ranked: seq<string>, held: set<string>, exitK: nat): seq<string> {
    Filter(ranked, Among(held * SetOf(Head(ranked, exitK))))
  }

  function Entrants(ranked: seq<string>, held: set<string>, enterK: nat): seq<string> {
    Filter(Head(ranked, enterK), NotAmong(held))
  }

  lemma KeptAndEntrants(ranked: seq<string>, held: set<string>, enterK: nat, exitK: nat)
    requires Distinct(ranked)
    ensures Distinct(Kept(ranked, held, exitK) + Entrants(ranked, held, enterK))
    ensures forall s :: s in Kept(ranked, held, exitK) <==> s in held && s in Head(ranked, exitK)
    ensures forall s :: s in Entrants(ranked, held, enterK) <==> s !in held && s in Head(ranked, enterK)
  {
    HeadDistinct(ranked, enterK);
    HeadDistinct(ranked, exitK);
    FilterDistinct(ranked, Among(held * SetOf(Head(ranked, exitK))));
    FilterDistinct(Head(ranked, enterK), NotAmong(held));
    Disjoint(Kept(ranked, held, exitK), Entrants(ranked, held, enterK), held);
  }

  lemma Disjoint(a: seq<string>, b: seq<string>, held: set<string>)
    requires Distinct(a) && Distinct(b)
    requires forall s :: s in a ==> s in held
    requires forall s :: s in b ==> s !in held
    ensures Distinct(a + b)
  {
    forall i, j | 0 <= i < j < |a + b| ensures (a + b)[i] != (a + b)[j] {
      if i < |a| <= j {
        assert a[i] in a && b[j - |a|] in b;
      }
    }
  }

  /** Selections are free of duplicates, inside the exit band, and no longer than the cap. */
  lemma SelectionIsWithinBand(ranked: seq<string>, held: set<string>, enterK: nat, exitK: nat, cap: Option<nat>)
    requires Distinct(ranked) && enterK <= exitK
    ensures var selected := SelectWithHysteresis(ranked, held, enterK, exitK, cap);
      && Distinct(selected)
      && (cap.Some? ==> |selected| <= cap.value)
      && (forall s :: s in selected ==> s in Head(ranked, exitK))
      && (forall s :: s in selected ==> s in held || s in Head(ranked, enterK))
  {
    var all := Kept(ranked, held, exitK) + Entrants(ranked, held, enterK);
    KeptAndEntrants(ranked, held, enterK, exitK);
    HeadsNest(ranked, enterK, exitK);
    if cap.Some? {
      HeadDistinct(all, cap.value);
    }
  }

  lemma DistinctSize(names: seq<string>, s: set<string>)
    requires Distinct(names) && forall n :: n in names ==> n in s
    ensures |names| <= |s|
    decreases |names|
  {
    if names != [] {
      var init, last := names[..|names| - 1], names[|names| - 1];
      forall n | n in init ensures n in s - {last} {
        var i :| 0 <= i < |init| && init[i] == n;
        assert names[i] != names[|names| - 1];
      }
      DistinctSize(init, s - {last});
    }
  }

  /** With no more names held than the cap allows, a held name is dropped exactly when it leaves the exit band. */
  lemma HeldUntilOutOfBand(ranked: seq<string>, held: set<string>, enterK: nat, exitK: nat, cap: Option<nat>, s: string)
    requires Distinct(ranked) && s in held && (cap.Some? ==> |held| <= cap.value) && enterK <= exitK
    ensures s in SelectWithHysteresis(ranked, held, enterK, exitK, cap) <==> s in Head(ranked, exitK)
  {
    var kept, entrants := Kept(ranked, held, exitK), Entrants(ranked, held, enterK);
    KeptAndEntrants(ranked, held, enterK, exitK);
    SelectionIsWithinBand(ranked, held, enterK, exitK, cap);
    if s in Head(ranked, exitK) && cap.Some? {
      forall i, j | 0 <= i < j < |kept| ensures kept[i] != kept[j] {
        assert (kept + entrants)[i] != (kept + entrants)[j];
      }
      DistinctSize(kept, held);
      var i :| 0 <= i < |kept| && kept[i] == s;
      assert Head(kept + entrants, cap.value)[i] == s;
    }
  }

  /** Selecting again from the same ranks, now holding the selection, changes nothing. */
  lemma ReselectionIsStable(ranked: seq<string>, held: set<string>, enterK: nat, exitK: nat, cap: Option<nat>)
    requires Distinct(ranked) && enterK <= exitK
    ensures var first := SetOf(SelectWithHysteresis(ranked, held, enterK, exitK, cap));
      SetOf(SelectWithHysteresis(ranked, first, enterK, exitK, cap)) == first
  {
    var selected := SelectWithHysteresis(ranked, held, enterK, exitK, cap);
    var first := SetOf(selected);
    var again := SelectWithHysteresis(ranked, first, enterK, exitK, cap);
    SelectionIsWithinBand(ranked, held, enterK, exitK, cap);
    SelectionIsWithinBand(ranked, first, enterK, exitK, cap);
    SetOfSize(selected);
    forall s | s in first ensures s in again {
      HeldUntilOutOfBand(ranked, first, enterK, exitK, cap, s);
    }
    assert first <= SetOf(again);
    if cap.Some? && |selected| == cap.value {
      SetOfSize(again);
      SameSize(first, SetOf(again));
    } else {
      NothingLeftOut(ranked, held, enterK, exitK, cap);
      forall s | s in again ensures s in first {
      }
    }
  }

  lemma SetOfSize(names: seq<string>)
    requires Distinct(names)
    ensures |SetOf(names)| == |names|
    decreases |names|
  {
    if names != [] {
      var init, last := names[..|names| - 1], names[|names| - 1];
      SetOfSize(init);
      assert names == init + [last];
      assert last !in init;
      assert SetOf(names) == SetOf(init) + {last};
    }
  }

  lemma SameSize(a: set<string>, b: set<string>)
    requires a <= b && |b| <= |a|
    ensures a == b
  {
    assert b == a + (b - a);
  }

  /** If the cap did not bite, every name of the entry band is selected or was held. */
  lemma NothingLeftOut(ranked: seq<string>, held: set<string>, enterK: nat, exitK: nat, cap: Option<nat>)
    requires Distinct(ranked) && enterK <= exitK
    requires cap.Some? ==> |SelectWithHysteresis(ranked, held, enterK, exitK, cap)| < cap.value
    ensures forall s :: s in Head(ranked, enterK) ==> s in SelectWithHysteresis(ranked, held, enterK, exitK, cap)
  {
    KeptAndEntrants(ranked, held, enterK, exitK);
    HeadsNest(ranked, enterK, exitK);
    var all := Kept(ranked, held, exitK) + Entrants(ranked, held, enterK);
    assert SelectWithHysteresis(ranked, held, enterK, exitK, cap) == all;
  }

  // ------------------------------------------------------------ in which order

  ghost predicate RankedBefore(ranked: seq<string>, a: string, b: string) {
    exists i, j :: 0 <= i < j < |ranked| && ranked[i] == a && ranked[j] == b
  }

  ghost predicate ByRank(ranked: seq<string>, names: seq<string>) {
    forall i, j :: 0 <= i < j < |names| ==> RankedBefore(ranked, names[i], names[j])
  }

  lemma FilterIsByRank(ranked: seq<string>, names: seq<string>, p: string -> bool)
    requires ByRank(ranked, names)
    ensures ByRank(ranked, Filter(names, p))
  {
    ghost var before := (a: string, b: string) => RankedBefore(ranked, a, b);
    FilterKeepsPairs(names, p, before);
    var kept := Filter(names, p);
    forall i, j | 0 <= i < j < |kept| ensures RankedBefore(ranked, kept[i], kept[j]) {
      assert before(kept[i], kept[j]);
    }
  }

  lemma HeadIsByRank(ranked: seq<string>, k: nat)
    ensures ByRank(ranked, ranked) && ByRank(ranked, Head(ranked, k))
  {
    forall i, j | 0 <= i < j < |ranked| ensures RankedBefore(ranked, ranked[i], ranked[j]) {
    }
    var head := Head(ranked, k);
    forall i, j | 0 <= i < j < |head| ensures RankedBefore(ranked, head[i], head[j]) {
      assert head[i] == ranked[i] && head[j] == ranked[j];
    }
  }

  /** Held names come before new ones, and each of them by rank; the cap cuts off the end of that list. */
  lemma SelectionIsInOrder(ranked: seq<string>, held: set<string>, enterK: nat, exitK: nat, cap: Option<nat>, i: nat,
                           j: nat)
    requires Distinct(ranked) && i < j < |SelectWithHysteresis(ranked, held, enterK, exitK, None)|
    ensures var all := SelectWithHysteresis(ranked, held, enterK, exitK, None);
      if all[i] in held <==> all[j] in held then RankedBefore(ranked, all[i], all[j])
      else all[i] in held && all[j] !in held
    ensures cap.Some? ==>
      var all, selected := SelectWithHysteresis(ranked, held, enterK, exitK, None),
                           SelectWithHysteresis(ranked, held, enterK, exitK, cap);
      selected == if cap.value < |all| then all[..cap.value] else all
  {
    var kept, entrants := Kept(ranked, held, exitK), Entrants(ranked, held, enterK);
    KeptAndEntrants(ranked, held, enterK, exitK);
    HeadIsByRank(ranked, enterK);
    FilterIsByRank(ranked, ranked, Among(held * SetOf(Head(ranked, exitK))));
    FilterIsByRank(ranked, Head(ranked, enterK), NotAmong(held));
    HeldGoFirst(ranked, held, kept, entrants, i, j);
  }

  lemma HeldGoFirst(ranked: seq<string>, held: set<string>, kept: seq<string>, entrants: seq<string>, i: nat, j: nat)
    requires ByRank(ranked, kept) && ByRank(ranked, entrants) && i < j < |kept + entrants|
    requires (forall s :: s in kept ==> s in held) && (forall s :: s in entrants ==> s !in held)
    ensures var all := kept + entrants;
      if all[i] in held <==> all[j] in held then RankedBefore(ranked, all[i], all[j])
      else all[i] in held && all[j] !in held
  {
    if i >= |kept| {
      assert entrants[i - |kept|] in entrants;
    }
    if j >= |kept| {
      assert entrants[j - |kept|] in entrants;
    }
  }

  // ------------------------------------------------------------- the two bands

  function Truncate(x: real): int {
    if x >= 0.0 then x.Floor else -((-x).Floor)
  }

  /** How many names may enter: a fraction of the ranking, at least one, at most the position limit. */
  function EnterBand(n: nat, topQuantile: real, maxPositions: Option<nat>): (k: nat)
    ensures maxPositions.Some? ==> k <= maxPositions.value
  {
    var wanted := Truncate(Times(n as real, topQuantile));
    var k := if wanted > 1 then wanted else 1;
    if maxPositions.Some? && maxPositions.value < k then maxPositions.value else k
  }

  /** How far down a held name may slip. */
  function ExitBand(n: nat, enterK: nat, multiple: real): (k: nat)
    ensures k <= n
  {
    var wide := Round(Times(enterK as real, multiple));
    var k := if wide > enterK then wide else enterK;
    if k < n then k else n
  }

  /**
   * On a ranking with a top fraction of at most all of it, the exit band contains the entry band, whatever
   * its multiple.
   */
  lemma BandsNest(n: nat, topQuantile: real, maxPositions: Option<nat>, multiple: real)
    requires n >= 1 && topQuantile <= 1.0
    ensures EnterBand(n, topQuantile, maxPositions) <= ExitBand(n, EnterBand(n, topQuantile, maxPositions), multiple)
  {
    FractionOf(n as real, topQuantile);
  }

  /** The entry band is the whole part of the fraction asked for, but at least one, and no more than the limit. */
  lemma EnterBandIs(n: nat, topQuantile: real, limit: nat)
    requires topQuantile >= 0.0
    ensures var exact, k := Times(n as real, topQuantile), EnterBand(n, topQuantile, None);
      && (exact < 1.0 ==> k == 1)
      && (exact >= 1.0 ==> k as real <= exact < k as real + 1.0)
      && EnterBand(n, topQuantile, Some(limit)) == if limit < k then limit else k
  {
    ProductNonNegative(n as real, topQuantile);
  }

  /**
   * The exit band is the nearest whole number of names to its multiple of the entry band, but never narrower than that
   * nor wider than the ranking.
   */
  lemma ExitBandIs(n: nat, enterK: nat, multiple: real)
    ensures var exact, k := Times(enterK as real, multiple), ExitBand(n, enterK, multiple);
      && k <= n && (enterK <= n ==> enterK <= k)
      && (enterK < k < n ==> Abs(k as real - exact) <= 0.5)
      && (k == enterK < n ==> exact <= enterK as real + 0.5)
      && (k == n ==> n <= enterK || exact >= n as real - 0.5)
  {
  }

  lemma FractionOf(n: real, q: real)
    requires n >= 0.0 && q <= 1.0
    ensures Times(n, q) <= n
  {
    assert n * (1.0 - q) >= 0.0;
  }

  // --------------------------------------------------------------------- the cycle

  /** The inputs of one cycle's selection. */
  datatype Cycle = Cycle(ranked: seq<string>, enterK: nat, exitK: nat, stopped: set<string>, reserved: set<string>)

  function Winners(c: Cycle, held: set<string>, cap: Option<nat>): seq<string> {
    Filter(SelectWithHysteresis(c.ranked, held, c.enterK, c.exitK, cap), NotAmong(c.stopped + c.reserved))
  }

  ghost predicate Proper(c: Cycle) {
    Distinct(c.ranked) && c.enterK <= c.exitK
  }

  /** What is held after each of several cycles, if every cycle's book is filled. */
  function HeldAfter(cycles: seq<Cycle>, held: set<string>, cap: Option<nat>): set<string> {
    if cycles == [] then held
    else
      var last := cycles[|cycles| - 1];
      SetOf(Winners(last, HeldAfter(cycles[..|cycles| - 1], held, cap), cap))
  }

  /** Never stopped, never reserved, always inside the exit band. */
  ghost predicate StaysRanked(cycles: seq<Cycle>, s: string) {
    forall i :: 0 <= i < |cycles| ==>
      s in Head(cycles[i].ranked, cycles[i].exitK) && s !in cycles[i].stopped && s !in cycles[i].reserved
  }

  lemma WinnersAreFew(c: Cycle, held: set<string>, cap: nat)
    requires Proper(c)
    ensures |SetOf(Winners(c, held, Some(cap)))| <= cap
  {
    var selected := SelectWithHysteresis(c.ranked, held, c.enterK, c.exitK, Some(cap));
    SelectionIsWithinBand(c.ranked, held, c.enterK, c.exitK, Some(cap));
    FilterDistinct(selected, NotAmong(c.stopped + c.reserved));
    SetOfSize(selected);
    DistinctSize(Winners(c, held, Some(cap)), SetOf(selected));
    SetOfSize(Winners(c, held, Some(cap)));
  }

  /** No more names than the cap, if there is one. */
  ghost predicate WithinCap(held: set<string>, cap: Option<nat>) {
    cap.Some? ==> |held| <= cap.value
  }

  /**
   * A name once held is held as long as it stays inside the exit band and is neither stopped nor reserved, however
   * the ranks move, with or without a cap on the number of names.
   */
  lemma {:induction false} HeldThroughRankNoise(cycles: seq<Cycle>, held: set<string>, cap: Option<nat>, s: string)
    requires forall i :: 0 <= i < |cycles| ==> Proper(cycles[i])
    requires WithinCap(held, cap) && s in held && StaysRanked(cycles, s)
    ensures s in HeldAfter(cycles, held, cap) && WithinCap(HeldAfter(cycles, held, cap), cap)
  {
    if cycles != [] {
      var init, last := cycles[..|cycles| - 1], cycles[|cycles| - 1];
      HeldThroughRankNoise(init, held, cap, s);
      var before := HeldAfter(init, held, cap);
      var selected := SelectWithHysteresis(last.ranked, before, last.enterK, last.exitK, cap);
      HeldUntilOutOfBand(last.ranked, before, last.enterK, last.exitK, cap, s);
      SelectionIsWithinBand(last.ranked, before, last.enterK, last.exitK, cap);
      FilterDistinct(selected, NotAmong(last.stopped + last.reserved));
      if cap.Some? {
        WinnersAreFew(last, before, cap.value);
      }
    }
  }

  // ------------------------------------------------------- flattening the leavers

  /** Held names with a price that the target no longer mentions. */
  function Leavers(target: RiskLimits.Weights, held: set<string>, prices: map<string, real>): set<string> {
    set s | s in held && s !in target && s in prices
  }

  /** Every held name that left the target, and has a price, gets an explicit zero. */
  method FlattenLeavers(target: RiskLimits.Weights, held: set<string>, prices: map<string, real>)
    returns (book: RiskLimits.Weights)
    ensures book == RiskLimits.WithFlattened(target, Leavers(target, held, prices))
    ensures forall s :: s in target ==> s in book && book[s] == target[s]
    ensures forall s :: s in held && s in prices ==> s in book
    ensures forall s :: s in book && s !in target ==> s in held && book[s] == 0.0
  {
    book := target;
    var todo := held;
    while todo != {}
      invariant todo <= held
      invariant book == RiskLimits.WithFlattened(target, Leavers(target, held - todo, prices))
      decreases |todo|
    {
      var s :| s in todo;
      FlattenOne(target, held - todo, prices, s);
      assert held - (todo - {s}) == held - todo + {s};
      if s !in book && s in prices {
        book := book[s := 0.0];
      }
      todo := todo - {s};
    }
    assert held - todo == held;
  }

  lemma FlattenOne(target: RiskLimits.Weights, done: set<string>, prices: map<string, real>, s: string)
    ensures var book := RiskLimits.WithFlattened(target, Leavers(target, done, prices));
      RiskLimits.WithFlattened(target, Leavers(target, done + {s}, prices))
        == if s !in book && s in prices then book[s := 0.0] else book
  {
    var book := RiskLimits.WithFlattened(target, Leavers(target, done, prices));
    var next := RiskLimits.WithFlattened(target, Leavers(target, done + {s}, prices));
    var expected := if s !in book && s in prices then book[s := 0.0] else book;
    assert next.Keys == expected.Keys;
    assert forall k :: k in next ==> next[k] == expected[k];
  }
}
