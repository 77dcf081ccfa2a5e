/** Correcting a family of tests for the breadth of the search: Bonferroni and Benjamini-Hochberg. */
module MultipleTesting {
  import opened Prelude

  type Pvalues = map<string, real>

  ghost predicate NonNegative(p: Pvalues) {
    forall n :: n in p ==> p[n] >= 0.0
  }

  /** The line rank k of m has to stay under. */
  function Line(k: int, m: int, alpha: real): real
    requires m > 0
  {
    Times(k as real / m as real, alpha)
  }

  // ------------------------------------------- which rejections are the right ones

  /** A set of hypotheses each of which meets the line of the whole set. */
  ghost predicate Justified(s: set<string>, p: Pvalues, alpha: real) {
    s <= p.Keys && forall n :: n in s ==> p[n] <= Line(|s|, |p|, alpha)
  }

  /** The rejections of the procedure: the largest justified set. */
  ghost predicate Largest(r: set<string>, p: Pvalues, alpha: real) {
    Justified(r, p, alpha) && forall s :: Justified(s, p, alpha) ==> s <= r
  }

  /** As many values as there are in s, each times the size of the family, are within s times the level. */
  ghost predicate Within(s: set<string>, p: Pvalues, alpha: real) {
    s <= p.Keys && forall n :: n in s ==> Times(|p| as real, p[n]) <= Times(|s| as real, alpha)
  }

  /** r is within that bound, and contains every set of hypotheses that is. */
  ghost predicate StepsUp(r: set<string>, p: Pvalues, alpha: real) {
    Within(r, p, alpha) && forall s :: Within(s, p, alpha) ==> s <= r
  }

  lemma LineIff(k: int, m: int, alpha: real, x: real)
    requires m > 0
    ensures x <= Line(k, m, alpha) <==> Times(m as real, x) <= Times(k as real, alpha)
  {
    var d := m as real;
    var ratio := k as real / d;
    LineTimes(ratio, d, k as real, alpha);
    if x <= Times(ratio, alpha) {
      MulMono(x, Times(ratio, alpha), d);
    } else {
      StrictProduct(x - Times(ratio, alpha), d);
      Distribute(x - Times(ratio, alpha), Times(ratio, alpha), d);
    }
  }

  lemma LineTimes(ratio: real, d: real, k: real, alpha: real)
    requires d > 0.0 && ratio == k / d
    ensures Times(Times(ratio, alpha), d) == Times(k, alpha)
  {
    assert ratio * d == k;
    assert ratio * alpha * d == (ratio * d) * alpha;
  }

  lemma WithinIff(s: set<string>, p: Pvalues, alpha: real)
    ensures Justified(s, p, alpha) <==> Within(s, p, alpha)
  {
    if s <= p.Keys {
      forall n | n in s
        ensures |p| > 0 && (p[n] <= Line(|s|, |p|, alpha) <==> Times(|p| as real, p[n]) <= Times(|s| as real, alpha))
      {
        assert |p| > 0 by { assert p.Keys - {n} < p.Keys; }
        LineIff(|s|, |p|, alpha, p[n]);
      }
    }
  }

  lemma LargestStepsUp(r: set<string>, p: Pvalues, alpha: real)
    ensures Largest(r, p, alpha) <==> StepsUp(r, p, alpha)
  {
    forall s ensures Justified(s, p, alpha) <==> Within(s, p, alpha) {
      WithinIff(s, p, alpha);
    }
  }

  lemma LineGrows(j: int, k: int, m: int, alpha: real)
    requires 0 < m && 0 <= j <= k && alpha >= 0.0
    ensures 0.0 <= Line(j, m, alpha) <= Line(k, m, alpha)
  {
    RatioGrows(j, k, m);
    MulMono(0.0, j as real / m as real, alpha);
    MulMono(j as real / m as real, k as real / m as real, alpha);
  }

  lemma RatioGrows(j: int, k: int, m: int)
    requires 0 < m && 0 <= j <= k
    ensures 0.0 <= j as real / m as real <= k as real / m as real
  {
    QuotientGrows(j as real, k as real, m as real);
    QuotientGrows(0.0, j as real, m as real);
  }

  lemma QuotientGrows(j: real, k: real, d: real)
    requires d > 0.0 && j <= k
    ensures j / d <= k / d
  {
    var a, b := j / d, k / d;
    assert a * d == j && b * d == k;
    if a > b {
      StrictProduct(a - b, d);
      assert false;
    }
  }

  lemma StrictProduct(x: real, y: real)
    requires x > 0.0 && y > 0.0
    ensures x * y > 0.0
  {
  }

  lemma LineOfAlpha(k: int, m: int, alpha: real, beta: real)
    requires 0 < m && 0 <= k && alpha <= beta
    ensures Line(k, m, alpha) <= Line(k, m, beta)
  {
    RatioGrows(0, k, m);
    MulMono(alpha, beta, k as real / m as real);
  }

  /** Only a non-negative level can justify anything. */
  lemma LevelIsNonNegative(s: set<string>, n: string, p: Pvalues, alpha: real)
    requires NonNegative(p) && Justified(s, p, alpha) && n in s
    ensures alpha >= 0.0
  {
    var m := |p|;
    assert |s| > 0 by {
      assert s - {n} < s;
    }
    if alpha < 0.0 {
      RatioGrows(1, |s|, m);
      PositiveRatio(m);
      NegativeLine(|s| as real / m as real, alpha);
      assert false;
    }
  }

  lemma PositiveRatio(m: int)
    requires m > 0
    ensures 1 as real / m as real > 0.0
  {
  }

  lemma NegativeLine(ratio: real, alpha: real)
    requires ratio > 0.0 && alpha < 0.0
    ensures Times(ratio, alpha) < 0.0
  {
  }

  // --------------------------------------------------------- the step-up procedure

  /** The names of p, each once, from the smallest value up; ties in any order. */
  ghost predicate Ascending(items: seq<string>, p: Pvalues) {
    && (forall i :: 0 <= i < |items| ==> items[i] in p)
    && (forall n :: n in p ==> n in items)
    && (forall i, j :: 0 <= i < j < |items| ==> items[i] != items[j] && p[items[i]] <= p[items[j]])
  }

  function First(items: seq<string>, k: int): set<string>
    requires 0 <= k <= |items|
  {
    set i | 0 <= i < k :: items[i]
  }

  lemma {:induction false} FirstHasRank(items: seq<string>, k: int)
    requires 0 <= k <= |items|
    requires forall i, j :: 0 <= i < j < |items| ==> items[i] != items[j]
    ensures |First(items, k)| == k
  {
    if k > 0 {
      FirstHasRank(items, k - 1);
      assert First(items, k) == First(items, k - 1) + {items[k - 1]};
    }
  }

  lemma ListedOnce(items: seq<string>, p: Pvalues)
    requires Ascending(items, p)
    ensures |items| == |p|
    ensures First(items, |items|) == p.Keys
  {
    FirstHasRank(items, |items|);
    assert First(items, |items|) == p.Keys;
    assert |p| == |p.Keys|;
  }

  /** The value of rank j (from 1) meets its line. */
  predicate Meets(items: seq<string>, p: Pvalues, alpha: real, j: int)
    requires 1 <= j <= |items| && items[j - 1] in p && |p| > 0
  {
    p[items[j - 1]] <= Line(j, |p|, alpha)
  }

  /** k is the last rank that meets its line, zero if none does. */
  ghost predicate LastMeeting(items: seq<string>, p: Pvalues, alpha: real, k: int, upTo: int)
    requires 0 <= k <= upTo <= |items| == |p| && forall i :: 0 <= i < |items| ==> items[i] in p
  {
    && (k > 0 ==> Meets(items, p, alpha, k))
    && forall j :: k < j <= upTo ==> !Meets(items, p, alpha, j)
  }

  /** The highest rank in a justified set meets its line. */
  lemma HighestRankMeets(s: set<string>, items: seq<string>, p: Pvalues, alpha: real, r: int)
    requires NonNegative(p) && Ascending(items, p) && Justified(s, p, alpha)
    requires 1 <= r <= |items| == |p| && items[r - 1] in s && s <= First(items, r)
    ensures Meets(items, p, alpha, r)
  {
    LevelIsNonNegative(s, items[r - 1], p, alpha);
    FirstHasRank(items, r);
    SubsetSize(s, First(items, r));
    LineGrows(|s|, r, |p|, alpha);
  }

  /** Ranks above the last one that meets its line take no part in a justified set. */
  lemma {:induction false} HighRanksAreOut(s: set<string>, items: seq<string>, p: Pvalues, alpha: real, k: int, r: int)
    requires NonNegative(p) && Ascending(items, p) && Justified(s, p, alpha)
    requires 0 <= k <= r <= |items| == |p|
    requires LastMeeting(items, p, alpha, k, |items|)
    requires s <= First(items, r)
    ensures s <= First(items, k)
    decreases r
  {
    if k < r {
      var last := items[r - 1];
      if last in s {
        HighestRankMeets(s, items, p, alpha, r);
        assert false;
      }
      assert First(items, r) == First(items, r - 1) + {last};
      HighRanksAreOut(s, items, p, alpha, k, r - 1);
    }
  }

  /** The hypotheses up to the last rank that meets its line are the largest justified set. */
  lemma StepUpIsLargest(items: seq<string>, p: Pvalues, alpha: real, k: int)
    requires NonNegative(p) && Ascending(items, p) && 0 <= k <= |items| == |p|
    requires LastMeeting(items, p, alpha, k, |items|)
    ensures Largest(First(items, k), p, alpha)
  {
    FirstHasRank(items, k);
    ListedOnce(items, p);
    forall n | n in First(items, k) ensures n in p && p[n] <= Line(k, |p|, alpha) {
      var i :| 0 <= i < k && items[i] == n;
      assert p[items[i]] <= p[items[k - 1]];
    }
    forall s | Justified(s, p, alpha) ensures s <= First(items, k) {
      HighRanksAreOut(s, items, p, alpha, k, |items|);
    }
  }

  /** Different names, from the smallest value up. */
  ghost predicate InValueOrder(items: seq<string>, p: Pvalues) {
    && (forall i :: 0 <= i < |items| ==> items[i] in p)
    && (forall i, j :: 0 <= i < j < |items| ==> items[i] != items[j] && p[items[i]] <= p[items[j]])
  }

  /** The list with one more name at place i. */
  function InsertedAt(items: seq<string>, i: nat, name: string): (all: seq<string>)
    requires i <= |items|
    ensures |all| == |items| + 1
    ensures forall j :: 0 <= j < |all| ==> all[j] == if j < i then items[j] else if j == i then name else items[j - 1]
  {
    items[..i] + [name] + items[i..]
  }

  lemma InsertedNames(items: seq<string>, i: nat, name: string)
    requires i <= |items|
    ensures forall n :: n in InsertedAt(items, i, name) <==> n in items || n == name
  {
    var all := InsertedAt(items, i, name);
    forall n | n in items || n == name ensures n in all {
      if n == name {
        assert all[i] == n;
      } else {
        var j :| 0 <= j < |items| && items[j] == n;
        assert all[if j < i then j else j + 1] == n;
      }
    }
  }

  lemma InsertedInOrder(items: seq<string>, i: nat, name: string, p: Pvalues)
    requires InValueOrder(items, p) && name in p && name !in items && i <= |items|
    requires i > 0 ==> p[items[i - 1]] <= p[name]
    requires i < |items| ==> p[name] <= p[items[i]]
    ensures InValueOrder(InsertedAt(items, i, name), p)
  {
    var all := InsertedAt(items, i, name);
    forall j, k | 0 <= j < k < |all| ensures all[j] != all[k] && p[all[j]] <= p[all[k]] {
      assert j < i - 1 ==> p[items[j]] <= p[items[i - 1]];
      assert i < k - 1 ==> p[items[i]] <= p[items[k - 1]];
    }
  }

  /** One more name in its place among those already listed. */
  method InsertByValue(items: seq<string>, name: string, p: Pvalues) returns (all: seq<string>)
    requires InValueOrder(items, p) && name in p && name !in items
    ensures InValueOrder(all, p) && forall n :: n in all <==> n in items || n == name
  {
    var i := |items|;
    while i > 0 && p[items[i - 1]] > p[name]
      invariant 0 <= i <= |items|
      invariant i < |items| ==> p[name] < p[items[i]]
    {
      i := i - 1;
    }
    InsertedInOrder(items, i, name, p);
    InsertedNames(items, i, name);
    all := InsertedAt(items, i, name);
  }

  /** The names sorted by their values; tied ones in the arbitrary order of the dictionary. */
  method SortByValue(p: Pvalues) returns (items: seq<string>)
    ensures Ascending(items, p)
  {
    items := [];
    var todo := p.Keys;
    while todo != {}
      invariant todo <= p.Keys && InValueOrder(items, p)
      invariant forall n :: n in items <==> n in p && n !in todo
    {
      var name :| name in todo;
      items := InsertByValue(items, name, p);
      todo := todo - {name};
    }
  }

  /** Which hypotheses the procedure rejects. */
  method BenjaminiHochberg(pvalues: Pvalues, alpha: real) returns (verdict: map<string, bool>)
    requires NonNegative(pvalues)
    ensures verdict.Keys == pvalues.Keys
    ensures Largest(Rejected(verdict), pvalues, alpha)
    ensures StepsUp((set n | n in verdict && verdict[n]), pvalues, alpha)
  {
    var items := SortByValue(pvalues);
    ListedOnce(items, pvalues);
    var k := 0;
    for i := 1 to |items| + 1
      invariant 0 <= k < i && LastMeeting(items, pvalues, alpha, k, i - 1)
    {
      if Meets(items, pvalues, alpha, i) {
        k := i;
      }
    }
    StepUpIsLargest(items, pvalues, alpha, k);
    var significant := First(items, k);
    verdict := Marked(pvalues, significant);
    RejectedStepUp(verdict, pvalues, alpha);
  }

  /** Every name, marked by whether it is one of the chosen. */
  function Marked(p: Pvalues, chosen: set<string>): (verdict: map<string, bool>)
    ensures verdict.Keys == p.Keys
    ensures chosen <= p.Keys ==> Rejected(verdict) == chosen
  {
    map n | n in p :: n in chosen
  }

  function Rejected(verdict: map<string, bool>): set<string> {
    set n | n in verdict && verdict[n]
  }

  // ------------------------------------------------------------------ its laws

  /** The verdict is a function of the values and the level: no listing of ties can change it. */
  lemma VerdictIgnoresTieOrder(p: Pvalues, alpha: real, a: map<string, bool>, b: map<string, bool>)
    requires a.Keys == p.Keys && Largest(Rejected(a), p, alpha)
    requires b.Keys == p.Keys && Largest(Rejected(b), p, alpha)
    ensures a == b
  {
    assert Rejected(a) == Rejected(b);
    forall n | n in p ensures a[n] == b[n] {
      assert a[n] <==> n in Rejected(a);
      assert b[n] <==> n in Rejected(b);
    }
  }

  /** Lower values or a higher level never take a rejection back. */
  lemma RejectionsAreMonotone(p: Pvalues, q: Pvalues, alpha: real, beta: real, r: set<string>, larger: set<string>)
    requires p.Keys == q.Keys && alpha <= beta
    requires forall n :: n in p ==> q[n] <= p[n]
    requires Largest(r, p, alpha) && Largest(larger, q, beta)
    ensures r <= larger
  {
    assert |p| == |p.Keys| == |q|;
    forall n | n in r ensures q[n] <= Line(|r|, |q|, beta) {
      assert |q| > 0 by { assert q.Keys - {n} < q.Keys; }
      LineOfAlpha(|r|, |p|, alpha, beta);
    }
    assert Justified(r, q, beta);
  }

  lemma JustifiedByOneMore(p: Pvalues, alpha: real, r: set<string>, n: string)
    requires alpha >= 0.0 && Justified(r, p, alpha) && n in p && |p| > 0 && p[n] <= Line(|r|, |p|, alpha)
    ensures Justified(r + {n}, p, alpha)
  {
    SubsetSize(r, r + {n});
    LineGrows(|r|, |r + {n}|, |p|, alpha);
  }

  /** A hypothesis is rejected exactly when its value is within the line of the number of rejections. */
  lemma RejectedIffUnderTheLine(p: Pvalues, alpha: real, r: set<string>, n: string)
    requires NonNegative(p) && Largest(r, p, alpha) && n in p
    ensures |p| > 0
    ensures n in r <==> r != {} && p[n] <= Line(|r|, |p|, alpha)
    ensures n in r <==> r != {} && Times(|p| as real, p[n]) <= Times(|r| as real, alpha)
  {
    assert |p| > 0 by { assert p.Keys - {n} < p.Keys; }
    LineIff(|r|, |p|, alpha, p[n]);
    if r != {} && p[n] <= Line(|r|, |p|, alpha) {
      var x :| x in r;
      LevelIsNonNegative(r, x, p, alpha);
      JustifiedByOneMore(p, alpha, r, n);
      assert n in r + {n};
    }
  }

  // ------------------------------------------------------------ the whole family

  /** The normal distribution function as far as the corrections depend on it: increasing, with an inverse. */
  ghost predicate Distribution(cdf: real -> real, inv: real -> real) {
    && (forall x :: 0.0 < cdf(x) < 1.0)
    && (forall x, y :: x < y ==> cdf(x) < cdf(y))
    && (forall q :: 0.0 < q < 1.0 ==> cdf(inv(q)) == q)
  }

  function TwoSidedP(t: real, cdf: real -> real): real {
    2.0 * (1.0 - cdf(Abs(t)))
  }

  /** For a distribution as heavy on either side, the value is the mass of both tails beyond the statistic. */
  lemma BothTails(t: real, cdf: real -> real)
    requires forall x :: cdf(-x) == 1.0 - cdf(x)
    ensures TwoSidedP(t, cdf) == cdf(-Abs(t)) + (1.0 - cdf(Abs(t)))
    ensures TwoSidedP(-t, cdf) == TwoSidedP(t, cdf)
  {
  }

  /** The level the two-sided bar is taken at. */
  function Quantile(trials: nat, alpha: real): real {
    1.0 - alpha / (2.0 * (if trials > 1 then trials else 1) as real)
  }

  datatype FamilyResult = FamilyResult(
    trials: nat, alpha: real, bar: real, pvalues: Pvalues, bonferroni: map<string, bool>, fdr: map<string, bool>)

  /** The inverse distribution is undefined outside the open unit interval: the library raises. */
  function BonferroniThreshold(trials: nat, alpha: real, inv: real -> real): (bar: Option<real>)
    ensures bar.Some? <==> 0.0 < alpha < 2.0 * (if trials > 1 then trials else 1) as real
  {
    QuantileInUnit(alpha, 2.0 * (if trials > 1 then trials else 1) as real);
    if 0.0 < Quantile(trials, alpha) < 1.0 then Some(inv(Quantile(trials, alpha))) else None
  }

  lemma QuantileInUnit(alpha: real, d: real)
    requires d > 0.0
    ensures 0.0 < 1.0 - alpha / d < 1.0 <==> 0.0 < alpha < d
  {
    QuotientStrict(0.0, alpha, d);
    QuotientStrict(alpha, d, d);
    UnitQuotients(d);
  }

  lemma UnitQuotients(d: real)
    requires d > 0.0
    ensures 0.0 / d == 0.0 && d / d == 1.0
  {
  }

  lemma QuotientStrict(j: real, k: real, d: real)
    requires d > 0.0
    ensures j < k <==> j / d < k / d
  {
    if j < k {
      QuotientGrows(j, k, d);
      var a, b := j / d, k / d;
      assert a * d == j && b * d == k;
    } else {
      QuotientGrows(k, j, d);
    }
  }

  /** A statistic clears the Bonferroni bar exactly when its value is at most alpha over the number of trials. */
  lemma BonferroniIffSmallP(t: real, trials: nat, alpha: real, cdf: real -> real, inv: real -> real)
    requires Distribution(cdf, inv) && trials >= 1 && 0.0 < alpha < 2.0 * trials as real
    ensures Abs(t) >= inv(Quantile(trials, alpha)) <==> TwoSidedP(t, cdf) <= Line(1, trials, alpha)
    ensures BonferroniThreshold(trials, alpha, inv).Some?
    ensures Abs(t) >= BonferroniThreshold(trials, alpha, inv).value
      <==> Times(trials as real, 2.0 * (1.0 - cdf(Abs(t)))) <= alpha
  {
    LineIff(1, trials, alpha, TwoSidedP(t, cdf));
    var q := Quantile(trials, alpha);
    QuantileInUnit(alpha, 2.0 * trials as real);
    var bar := inv(q);
    assert cdf(bar) == q;
    TwiceTheTail(trials as real, alpha);
    assert 2.0 * (1.0 - q) == Line(1, trials, alpha);
    if Abs(t) < bar {
      assert cdf(Abs(t)) < cdf(bar);
    } else if Abs(t) > bar {
      assert cdf(bar) < cdf(Abs(t));
    }
  }

  lemma TwiceTheTail(m: real, alpha: real)
    requires m > 0.0
    ensures 2.0 * (1.0 - (1.0 - alpha / (2.0 * m))) == Times(1.0 / m, alpha)
  {
    var h := alpha / (2.0 * m);
    assert h * (2.0 * m) == alpha;
    assert (1.0 / m) * m == 1.0;
    calc {
      Times(1.0 / m, alpha);
      (1.0 / m) * (h * (2.0 * m));
      ((1.0 / m) * m) * (2.0 * h);
      2.0 * h;
    }
  }

  /** One hypothesis is within the line of a single rejection. */
  ghost predicate Small(p: Pvalues, alpha: real, n: string)
    requires n in p
  {
    |p| > 0 && p[n] <= Line(1, |p|, alpha)
  }

  /** Whatever is within the line of a single rejection is rejected. */
  lemma SmallValuesAreRejected(p: Pvalues, alpha: real, small: set<string>, r: set<string>)
    requires alpha >= 0.0 && small <= p.Keys && Largest(r, p, alpha)
    requires forall n :: n in small ==> Small(p, alpha, n)
    ensures small <= r
  {
    forall n | n in small ensures p[n] <= Line(|small|, |p|, alpha) {
      assert |small| > 0 by { assert small - {n} < small; }
      LineGrows(1, |small|, |p|, alpha);
    }
    assert Justified(small, p, alpha);
  }

  function Pvals(tStats: map<string, real>, cdf: real -> real): Pvalues {
    map n | n in tStats :: TwoSidedP(tStats[n], cdf)
  }

  function Clearing(tStats: map<string, real>, bar: real): map<string, bool> {
    map n | n in tStats :: Abs(tStats[n]) >= bar
  }

  /** Clearing the Bonferroni bar is being small. */
  lemma ClearingIsSmall(tStats: map<string, real>, alpha: real, cdf: real -> real, inv: real -> real)
    requires Distribution(cdf, inv) && BonferroniThreshold(|tStats|, alpha, inv).Some?
    ensures alpha > 0.0 && Pvals(tStats, cdf).Keys == tStats.Keys
    ensures var clearing := Clearing(tStats, BonferroniThreshold(|tStats|, alpha, inv).value);
      clearing.Keys == tStats.Keys && forall n :: n in tStats ==> (clearing[n] <==> Small(Pvals(tStats, cdf), alpha, n))
  {
    var p := Pvals(tStats, cdf);
    assert p.Keys == tStats.Keys;
    assert |p| == |p.Keys| == |tStats|;
    forall n | n in tStats
      ensures Abs(tStats[n]) >= BonferroniThreshold(|tStats|, alpha, inv).value <==> Small(p, alpha, n)
    {
      assert |tStats| > 0 by { assert tStats.Keys - {n} < tStats.Keys; }
      BonferroniIffSmallP(tStats[n], |tStats|, alpha, cdf, inv);
    }
  }

  /**
   * What a corrected family says: the step-up rejections are the largest justified set, the Bonferroni ones are
   * the hypotheses small on their own, and every one of those is among the former.
   */
  ghost predicate Corrected(result: FamilyResult, p: Pvalues, alpha: real) {
    && result.trials == |p| && result.pvalues == p
    && result.fdr.Keys == result.bonferroni.Keys == p.Keys
    && Largest(Rejected(result.fdr), p, alpha)
    && (forall n :: n in p ==> (result.bonferroni[n] <==> Small(p, alpha, n)))
    && Rejected(result.bonferroni) <= Rejected(result.fdr)
  }

  /** The same over the statistics themselves. */
  ghost predicate CorrectedInFull(result: FamilyResult, tStats: map<string, real>, alpha: real, cdf: real -> real) {
    && result.pvalues == (map n | n in tStats :: 2.0 * (1.0 - cdf(Abs(tStats[n]))))
    && StepsUp((set n | n in result.fdr && result.fdr[n]), result.pvalues, alpha)
    && BarIsCleared(result.bonferroni, tStats, alpha, cdf)
  }

  ghost predicate BarIsCleared(verdict: map<string, bool>, tStats: map<string, real>, alpha: real, cdf: real -> real) {
    && verdict.Keys == tStats.Keys
    && forall n :: n in tStats ==>
         (verdict[n] <==> Times(|tStats| as real, 2.0 * (1.0 - cdf(Abs(tStats[n])))) <= alpha)
  }

  lemma ClearingIsWithin(tStats: map<string, real>, alpha: real, cdf: real -> real, inv: real -> real)
    requires Distribution(cdf, inv) && BonferroniThreshold(|tStats|, alpha, inv).Some?
    ensures BarIsCleared(Clearing(tStats, BonferroniThreshold(|tStats|, alpha, inv).value), tStats, alpha, cdf)
  {
    forall n | n in tStats
      ensures Abs(tStats[n]) >= BonferroniThreshold(|tStats|, alpha, inv).value
        <==> Times(|tStats| as real, 2.0 * (1.0 - cdf(Abs(tStats[n])))) <= alpha
    {
      assert |tStats| > 0 by { assert tStats.Keys - {n} < tStats.Keys; }
      BonferroniIffSmallP(tStats[n], |tStats|, alpha, cdf, inv);
    }
  }

  lemma InFull(result: FamilyResult, tStats: map<string, real>, alpha: real, cdf: real -> real, inv: real -> real)
    requires Distribution(cdf, inv) && BonferroniThreshold(|tStats|, alpha, inv).Some?
    requires result.pvalues == Pvals(tStats, cdf) && Largest(Rejected(result.fdr), result.pvalues, alpha)
    requires result.bonferroni == Clearing(tStats, BonferroniThreshold(|tStats|, alpha, inv).value)
    ensures CorrectedInFull(result, tStats, alpha, cdf)
  {
    ClearingIsWithin(tStats, alpha, cdf, inv);
    RejectedStepUp(result.fdr, result.pvalues, alpha);
    PvalsAre(tStats, cdf);
  }

  lemma RejectedStepUp(verdict: map<string, bool>, p: Pvalues, alpha: real)
    requires Largest(Rejected(verdict), p, alpha)
    ensures StepsUp((set n | n in verdict && verdict[n]), p, alpha)
  {
    LargestStepsUp(Rejected(verdict), p, alpha);
    assert Rejected(verdict) == set n | n in verdict && verdict[n];
  }

  lemma PvalsAre(tStats: map<string, real>, cdf: real -> real)
    ensures Pvals(tStats, cdf) == map n | n in tStats :: 2.0 * (1.0 - cdf(Abs(tStats[n])))
  {
  }

  /** Both corrections over all signals tested together. */
  method CorrectFamily(tStats: map<string, real>, alpha: real, cdf: real -> real, inv: real -> real)
    returns (result: Option<FamilyResult>)
    requires Distribution(cdf, inv)
    ensures result.None? <==> alpha <= 0.0 || alpha >= 2.0 * (if |tStats| > 1 then |tStats| else 1) as real
    ensures result.Some? ==> Corrected(result.value, Pvals(tStats, cdf), alpha)
    ensures result.Some? ==> CorrectedInFull(result.value, tStats, alpha, cdf)
  {
    var m := |tStats|;
    var bar := BonferroniThreshold(m, alpha, inv);
    if bar.None? {
      return None;
    }
    var pvalues := Pvals(tStats, cdf);
    var bonferroni := Clearing(tStats, bar.value);
    var fdr := BenjaminiHochberg(pvalues, alpha);
    ClearingIsSmall(tStats, alpha, cdf, inv);
    SmallValuesAreRejected(pvalues, alpha, Rejected(bonferroni), Rejected(fdr));
    result := Some(FamilyResult(m, alpha, bar.value, pvalues, bonferroni, fdr));
    InFull(result.value, tStats, alpha, cdf, inv);
  }
}
