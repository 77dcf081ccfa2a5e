/** Hierarchical risk parity: the level-by-level bisection of an ordered list of names into weights. */
module Hrp {
  import opened Prelude
  import opened Sums
  import opened Dendrogram

  type Cluster = seq<int>
  type Weights = map<int, real>

  ghost predicate Distinct(c: Cluster) {
    forall i, j :: 0 <= i < j < |c| ==> c[i] != c[j]
  }

  /** Every non-empty cluster has a positive variance. */
  ghost predicate Positive(variance: Cluster -> real) {
    forall c :: c != [] ==> variance(c) > 0.0
  }

  function Left(c: Cluster): Cluster {
    c[..|c| / 2]
  }

  function Right(c: Cluster): Cluster {
    c[|c| / 2..]
  }

  /** What every split of at least two names gives to the left half. */
  ghost predicate Proper(part: Cluster -> real) {
    forall c :: |c| > 1 ==> 0.0 < part(c) < 1.0
  }

  function Multiplied(w: Weights, f: real): Weights {
    map x | x in w :: Times(w[x], f)
  }

  /** The weights of one split: each half's own weights, scaled by its part. */
  function Mix(l: Weights, r: Weights, alpha: real): Weights {
    Multiplied(l, alpha) + Multiplied(r, 1.0 - alpha)
  }

  /** The reference: recursive bisection, splitting a whole between the two halves at every level. */
  ghost function Shares(c: Cluster, part: Cluster -> real): Weights
    requires Proper(part)
    decreases |c|
  {
    if |c| <= 1 then map x | x in c :: 1.0
    else Mix(Shares(Left(c), part), Shares(Right(c), part), part(c))
  }

  lemma HalvesSplit(c: Cluster)
    requires |c| > 1 && Distinct(c)
    ensures Left(c) != [] && Right(c) != [] && Distinct(Left(c)) && Distinct(Right(c))
    ensures c == Left(c) + Right(c)
    ensures forall x :: x in c <==> x in Left(c) || x in Right(c)
    ensures forall x :: x in Left(c) ==> x !in Right(c)
  {
  }

  lemma {:induction false} ShareKeys(c: Cluster, part: Cluster -> real)
    requires Proper(part) && Distinct(c)
    ensures forall x :: x in Shares(c, part) <==> x in c
    decreases |c|
  {
    if |c| > 1 {
      HalvesSplit(c);
      ShareKeys(Left(c), part);
      ShareKeys(Right(c), part);
    }
  }

  lemma PositiveProduct(a: real, b: real)
    requires a > 0.0 && b > 0.0
    ensures Times(a, b) > 0.0
  {
  }

  ghost predicate AllPositive(w: Weights) {
    forall x :: x in w ==> w[x] > 0.0
  }

  lemma MultipliedIsPositive(w: Weights, f: real)
    requires AllPositive(w) && f > 0.0
    ensures AllPositive(Multiplied(w, f))
  {
    forall x | x in w ensures Times(w[x], f) > 0.0 {
      PositiveProduct(w[x], f);
    }
  }

  lemma {:induction false} SharesArePositive(c: Cluster, part: Cluster -> real)
    requires Proper(part)
    ensures AllPositive(Shares(c, part))
    decreases |c|
  {
    if |c| > 1 {
      var alpha := part(c);
      SharesArePositive(Left(c), part);
      SharesArePositive(Right(c), part);
      MultipliedIsPositive(Shares(Left(c), part), alpha);
      MultipliedIsPositive(Shares(Right(c), part), 1.0 - alpha);
    }
  }

  lemma WholeScaled(w: Weights, f: real)
    requires Total(w) == 1.0
    ensures Total(Multiplied(w, f)) == f
  {
    TotalScale(w, Multiplied(w, f), f);
    assert Times(1.0, f) == f;
  }

  /** Mixing two wholes gives a whole. */
  lemma MixOfWholes(l: Weights, r: Weights, alpha: real)
    requires l.Keys !! r.Keys && Total(l) == 1.0 && Total(r) == 1.0
    ensures Total(Mix(l, r, alpha)) == 1.0
  {
    WholeScaled(l, alpha);
    WholeScaled(r, 1.0 - alpha);
    TotalOfParts(Multiplied(l, alpha), Multiplied(r, 1.0 - alpha), Mix(l, r, alpha));
  }

  lemma DisjointHalves(c: Cluster, part: Cluster -> real)
    requires Proper(part) && |c| > 1 && Distinct(c)
    ensures Shares(Left(c), part).Keys !! Shares(Right(c), part).Keys
  {
    HalvesSplit(c);
    ShareKeys(Left(c), part);
    ShareKeys(Right(c), part);
  }

  /** Recursive bisection hands out exactly the whole. */
  lemma {:induction false} SharesSumToOne(c: Cluster, part: Cluster -> real)
    requires Proper(part) && c != [] && Distinct(c)
    ensures Total(Shares(c, part)) == 1.0
    decreases |c|
  {
    if |c| == 1 {
      SingleShare(c[0], part);
      assert c == [c[0]];
    } else {
      HalvesSplit(c);
      SharesSumToOne(Left(c), part);
      SharesSumToOne(Right(c), part);
      DisjointHalves(c, part);
      MixOfWholes(Shares(Left(c), part), Shares(Right(c), part), part(c));
    }
  }

  lemma SingleShare(x: int, part: Cluster -> real)
    requires Proper(part)
    ensures Shares([x], part) == map[x := 1.0]
    ensures Total(map[x := 1.0]) == 1.0
  {
    assert Shares([x], part) == map[x := 1.0];
    TotalRemove(map[x := 1.0], x);
    assert map[x := 1.0] - {x} == map[];
  }

  /** The part of the weights that falls on the given names. */
  function Within<K>(w: map<K, real>, names: seq<K>): map<K, real> {
    map x | x in names && x in w :: w[x]
  }

  lemma WithinSide<K>(m: map<K, real>, side: seq<K>, a: map<K, real>)
    requires forall x :: x in a <==> x in side
    requires forall x :: x in a ==> x in m && m[x] == a[x]
    ensures Within(m, side) == a
  {
  }

  /** The masses a mix leaves on its two sides. */
  lemma MassesOfMix(l: Weights, r: Weights, alpha: real, left: Cluster, right: Cluster)
    requires l.Keys !! r.Keys && Total(l) == 1.0 && Total(r) == 1.0
    requires forall x :: x in l <==> x in left
    requires forall x :: x in r <==> x in right
    ensures Total(Within(Mix(l, r, alpha), left)) == alpha
    ensures Total(Within(Mix(l, r, alpha), right)) == 1.0 - alpha
  {
    WholeScaled(l, alpha);
    WholeScaled(r, 1.0 - alpha);
    forall x ensures x in Multiplied(l, alpha) <==> x in left {}
    forall x ensures x in Multiplied(r, 1.0 - alpha) <==> x in right {}
    WithinSide(Mix(l, r, alpha), left, Multiplied(l, alpha));
    WithinSide(Mix(l, r, alpha), right, Multiplied(r, 1.0 - alpha));
  }

  lemma WholeHalves(c: Cluster, part: Cluster -> real)
    requires Proper(part) && |c| > 1 && Distinct(c)
    ensures Total(Shares(Left(c), part)) == 1.0 && Total(Shares(Right(c), part)) == 1.0
  {
    HalvesSplit(c);
    SharesSumToOne(Left(c), part);
    SharesSumToOne(Right(c), part);
  }

  lemma SplitIsMix(c: Cluster, part: Cluster -> real)
    requires Proper(part) && |c| > 1
    ensures Shares(c, part) == Mix(Shares(Left(c), part), Shares(Right(c), part), part(c))
  {
  }

  /** At every split of at least two names the two halves get exactly their parts. */
  lemma HalvesGetTheirParts(c: Cluster, part: Cluster -> real)
    requires Proper(part) && |c| > 1 && Distinct(c)
    ensures Total(Within(Shares(c, part), Left(c))) == part(c)
    ensures Total(Within(Shares(c, part), Right(c))) == 1.0 - part(c)
  {
    var left, right := Left(c), Right(c);
    HalvesSplit(c);
    WholeHalves(c, part);
    DisjointHalves(c, part);
    ShareKeys(left, part);
    ShareKeys(right, part);
    SplitIsMix(c, part);
    MassesOfMix(Shares(left, part), Shares(right, part), part(c), left, right);
  }

  // ---------------------------------------------- the loop: one level at a time

  /** The names of a row of clusters. */
  ghost function Flat(clusters: seq<Cluster>): Cluster {
    if clusters == [] then [] else clusters[0] + Flat(clusters[1..])
  }

  /** What is still to be split off name x by the clusters that are not finished. */
  ghost function Due(clusters: seq<Cluster>, x: int, part: Cluster -> real): real
    requires Proper(part)
  {
    if clusters == [] then 1.0
    else if x in Shares(clusters[0], part) then Shares(clusters[0], part)[x]
    else Due(clusters[1..], x, part)
  }

  /** Once everything due has been split off, the weights are those of recursive bisection. */
  ghost predicate OnTrack(w: Weights, clusters: seq<Cluster>, ordered: Cluster, part: Cluster -> real)
    requires Proper(part)
  {
    var goal := Shares(ordered, part);
    w.Keys == goal.Keys && forall x :: x in w ==> Times(w[x], Due(clusters, x, part)) == goal[x]
  }

  ghost predicate NonEmpty(clusters: seq<Cluster>) {
    forall i :: 0 <= i < |clusters| ==> clusters[i] != []
  }

  lemma {:induction false} FlatAppend(a: seq<Cluster>, b: seq<Cluster>)
    ensures Flat(a + b) == Flat(a) + Flat(b)
  {
    if a == [] {
      assert a + b == b;
    } else {
      assert (a + b)[1..] == a[1..] + b;
      FlatAppend(a[1..], b);
    }
  }

  lemma {:induction false} DueAppend(a: seq<Cluster>, b: seq<Cluster>, x: int, part: Cluster -> real)
    requires Proper(part) && Distinct(Flat(a))
    ensures Due(a + b, x, part) == if x in Flat(a) then Due(a, x, part) else Due(b, x, part)
  {
    if a == [] {
      assert a + b == b;
    } else {
      assert (a + b)[1..] == a[1..] + b;
      DistinctParts(a[0], Flat(a[1..]));
      ShareKeys(a[0], part);
      DueAppend(a[1..], b, x, part);
    }
  }

  lemma DistinctParts(a: Cluster, b: Cluster)
    requires Distinct(a + b)
    ensures Distinct(a) && Distinct(b)
    ensures forall x :: x in a ==> x !in b
  {
    forall i, j | 0 <= i < j < |a| ensures a[i] != a[j] {
      assert (a + b)[i] != (a + b)[j];
    }
    forall i, j | 0 <= i < j < |b| ensures b[i] != b[j] {
      assert (a + b)[|a| + i] != (a + b)[|a| + j];
    }
    forall x | x in a ensures x !in b {
      var i :| 0 <= i < |a| && a[i] == x;
      forall j | 0 <= j < |b| ensures b[j] != x {
        assert (a + b)[i] != (a + b)[|a| + j];
      }
    }
  }

  /** The clusters of at least two names. */
  function Big(clusters: seq<Cluster>): seq<Cluster> {
    if clusters == [] then []
    else (if |clusters[0]| > 1 then [clusters[0]] else []) + Big(clusters[1..])
  }

  /** The halves of the clusters of at least two names, siblings next to each other. */
  function Halves(clusters: seq<Cluster>): seq<Cluster> {
    if clusters == [] then []
    else
      var c := clusters[0];
      (if |c| > 1 then [Left(c), Right(c)] else []) + Halves(clusters[1..])
  }

  /** The loop's measure: it counts the splits still possible. */
  function Measure(clusters: seq<Cluster>): int {
    if clusters == [] then 0 else 2 * |clusters[0]| - 1 + Measure(clusters[1..])
  }

  lemma {:induction false} TwoPerSplit(clusters: seq<Cluster>)
    ensures |Halves(clusters)| == 2 * |Big(clusters)|
  {
    if clusters != [] {
      TwoPerSplit(clusters[1..]);
    }
  }

  lemma {:induction false} PairAt(clusters: seq<Cluster>, k: nat)
    requires k < |Big(clusters)| && |Halves(clusters)| == 2 * |Big(clusters)|
    ensures |Big(clusters)[k]| > 1
    ensures Halves(clusters)[2 * k] == Left(Big(clusters)[k])
    ensures Halves(clusters)[2 * k + 1] == Right(Big(clusters)[k])
  {
    TwoPerSplit(clusters[1..]);
    if |clusters[0]| <= 1 {
      PairAt(clusters[1..], k);
    } else if k > 0 {
      PairAt(clusters[1..], k - 1);
      assert Halves(clusters)[2 * k] == Halves(clusters[1..])[2 * (k - 1)];
      assert Halves(clusters)[2 * k + 1] == Halves(clusters[1..])[2 * (k - 1) + 1];
    }
  }

  lemma {:induction false} MeasureDrops(clusters: seq<Cluster>)
    requires NonEmpty(clusters)
    ensures 0 <= Measure(Halves(clusters)) <= Measure(clusters) - |clusters|
  {
    if clusters != [] {
      var c, rest := clusters[0], clusters[1..];
      MeasureDrops(rest);
      if |c| > 1 {
        assert Halves(clusters)[1..] == [Right(c)] + Halves(rest);
        assert Halves(clusters)[1..][1..] == Halves(rest);
        assert Measure(Halves(clusters)) == 2 * |Left(c)| - 1 + (2 * |Right(c)| - 1 + Measure(Halves(rest)));
      } else {
        assert Halves(clusters) == Halves(rest);
      }
    }
  }

  /** Finished clusters have nothing due. */
  lemma {:induction false} BigKeepsDue(clusters: seq<Cluster>, x: int, part: Cluster -> real)
    requires Proper(part) && Distinct(Flat(clusters))
    ensures Distinct(Flat(Big(clusters)))
    ensures forall y :: y in Flat(Big(clusters)) ==> y in Flat(clusters)
    ensures Due(Big(clusters), x, part) == Due(clusters, x, part)
    ensures x !in Flat(clusters) ==> Due(clusters, x, part) == 1.0
  {
    if clusters != [] {
      var c, rest := clusters[0], clusters[1..];
      DistinctParts(c, Flat(rest));
      BigKeepsDue(rest, x, part);
      ShareKeys(c, part);
      if |c| > 1 {
        assert Big(clusters)[1..] == Big(rest);
        JoinDistinct(c, Flat(Big(rest)));
      } else {
        assert Big(clusters) == Big(rest);
        if x in c {
          BigKeepsDue(rest, x, part);
        }
      }
    }
  }

  lemma JoinDistinct(a: Cluster, b: Cluster)
    requires Distinct(a) && Distinct(b)
    requires forall x :: x in b ==> x !in a
    ensures Distinct(a + b)
  {
    forall i, j | 0 <= i < j < |a + b| ensures (a + b)[i] != (a + b)[j] {
      if i < |a| <= j {
        assert (a + b)[j] == b[j - |a|];
        assert b[j - |a|] in b;
      }
    }
  }

  /** The weights after the names of c have been multiplied by f. */
  function Scaled(w: Weights, c: Cluster, f: real): Weights {
    map x | x in w :: if x in c then Times(w[x], f) else w[x]
  }

  /** What one split makes of the weight v of name x. */
  ghost function SplitWeight(v: real, c: Cluster, x: int, alpha: real): real {
    if x in Left(c) then Times(v, alpha) else if x in Right(c) then Times(v, 1.0 - alpha) else v
  }

  /** One step of a level: cluster c of the row gives way to its halves, whose weights get their parts. */
  ghost function SplitWeights(w: Weights, c: Cluster, alpha: real): Weights {
    map x | x in w :: SplitWeight(w[x], c, x, alpha)
  }

  /** Which is what scaling one half after the other does. */
  lemma ScalingBothHalves(w: Weights, c: Cluster, alpha: real)
    requires |c| > 1 && Distinct(c)
    ensures Scaled(Scaled(w, Left(c), alpha), Right(c), 1.0 - alpha) == SplitWeights(w, c, alpha)
  {
    HalvesSplit(c);
  }

  lemma Reassociate(w: real, f: real, s: real, d: real)
    requires d == Times(s, f)
    ensures Times(Times(w, f), s) == Times(w, d)
  {
  }

  /** Splitting one cluster of a row in place leaves what is due in step with the scaled weights. */
  lemma SplitKeepsDue(before: seq<Cluster>, c: Cluster, after: seq<Cluster>, x: int, v: real, part: Cluster -> real)
    requires Proper(part) && |c| > 1 && Distinct(Flat(before + [c] + after))
    ensures Times(SplitWeight(v, c, x, part(c)), Due(before + [Left(c), Right(c)] + after, x, part))
      == Times(v, Due(before + [c] + after, x, part))
  {
    var l, r, alpha := Left(c), Right(c), part(c);
    RowParts(before, c, after);
    HalvesSplit(c);
    assert before + [c] + after == before + ([c] + after);
    assert before + [l, r] + after == before + ([l, r] + after);
    DueAppend(before, [c] + after, x, part);
    DueAppend(before, [l, r] + after, x, part);
    if x !in Flat(before) {
      SplitHere(c, after, x, v, part);
    }
  }

  lemma SplitHere(c: Cluster, after: seq<Cluster>, x: int, v: real, part: Cluster -> real)
    requires Proper(part) && |c| > 1 && Distinct(c)
    ensures Times(SplitWeight(v, c, x, part(c)), Due([Left(c), Right(c)] + after, x, part))
      == Times(v, Due([c] + after, x, part))
  {
    DueOfSplit(c, after, x, part);
    PartMoves(c, x, v, part(c), Due([c] + after, x, part), Due([Left(c), Right(c)] + after, x, part));
  }

  /** A part taken off what is due may as well be taken of the weight. */
  lemma PartMoves(c: Cluster, x: int, v: real, alpha: real, whole: real, split: real)
    requires whole == if x in Left(c) then Times(split, alpha)
                      else if x in Right(c) then Times(split, 1.0 - alpha)
                      else split
    ensures Times(SplitWeight(v, c, x, alpha), split) == Times(v, whole)
  {
    if x in Left(c) {
      Reassociate(v, alpha, split, whole);
    } else if x in Right(c) {
      Reassociate(v, 1.0 - alpha, split, whole);
    }
  }

  lemma DueOfSplit(c: Cluster, after: seq<Cluster>, x: int, part: Cluster -> real)
    requires Proper(part) && |c| > 1 && Distinct(c)
    ensures var whole, split := Due([c] + after, x, part), Due([Left(c), Right(c)] + after, x, part);
      whole == if x in Left(c) then Times(split, part(c))
               else if x in Right(c) then Times(split, 1.0 - part(c))
               else split
  {
    HalvesSplit(c);
    ShareKeys(c, part);
    ShareKeys(Left(c), part);
    ShareKeys(Right(c), part);
    assert ([c] + after)[1..] == after;
    assert ([Left(c), Right(c)] + after)[1..] == [Right(c)] + after;
    assert ([Right(c)] + after)[1..] == after;
  }

  lemma RowParts(before: seq<Cluster>, c: Cluster, after: seq<Cluster>)
    requires Distinct(Flat(before + [c] + after))
    ensures Distinct(Flat(before)) && Distinct(c) && Distinct(Flat(after))
    ensures forall x :: x in Flat(before) ==> x !in c
    ensures forall x :: x in Flat(after) ==> x !in c
    ensures Flat(before + [c] + after) == Flat(before) + (c + Flat(after))
  {
    assert before + [c] + after == before + ([c] + after);
    FlatAppend(before, [c] + after);
    assert ([c] + after)[1..] == after;
    DistinctParts(Flat(before), c + Flat(after));
    DistinctParts(c, Flat(after));
  }

  lemma SplitStaysOnTrack(w: Weights, before: seq<Cluster>, c: Cluster, after: seq<Cluster>, ordered: Cluster,
                          part: Cluster -> real)
    requires Proper(part) && |c| > 1 && Distinct(Flat(before + [c] + after))
    requires OnTrack(w, before + [c] + after, ordered, part)
    ensures OnTrack(SplitWeights(w, c, part(c)), before + [Left(c), Right(c)] + after, ordered, part)
    ensures Flat(before + [Left(c), Right(c)] + after) == Flat(before + [c] + after)
  {
    SplitFlat(before, c, after);
    forall x | x in w
      ensures Times(SplitWeights(w, c, part(c))[x], Due(before + [Left(c), Right(c)] + after, x, part))
        == Shares(ordered, part)[x]
    {
      SplitKeepsDue(before, c, after, x, w[x], part);
    }
  }

  lemma SplitFlat(before: seq<Cluster>, c: Cluster, after: seq<Cluster>)
    ensures Flat(before + [Left(c), Right(c)] + after) == Flat(before + [c] + after)
  {
    assert before + [c] + after == before + ([c] + after);
    assert before + [Left(c), Right(c)] + after == before + ([Left(c), Right(c)] + after);
    FlatAppend(before, [c] + after);
    FlatAppend(before, [Left(c), Right(c)] + after);
    assert ([c] + after)[1..] == after;
    assert ([Left(c), Right(c)] + after)[1..] == [Right(c)] + after;
    assert ([Right(c)] + after)[1..] == after;
    assert Left(c) + (Right(c) + Flat(after)) == c + Flat(after);
  }

  /** The row half-way through a level: halves up to pair k, clusters still to be split after it. */
  ghost function Row(split: seq<Cluster>, k: nat): seq<Cluster>
    requires k <= |split|
  {
    Halves(split[..k]) + split[k..]
  }

  lemma {:induction false} HalvesAppend(a: seq<Cluster>, b: seq<Cluster>)
    ensures Halves(a + b) == Halves(a) + Halves(b)
  {
    if a == [] {
      assert a + b == b;
    } else {
      assert (a + b)[1..] == a[1..] + b;
      HalvesAppend(a[1..], b);
    }
  }

  lemma RowGrows(split: seq<Cluster>, k: nat)
    requires k < |split| && |split[k]| > 1
    ensures Row(split, k) == Halves(split[..k]) + [split[k]] + split[k + 1..]
    ensures Row(split, k + 1) == Halves(split[..k]) + [Left(split[k]), Right(split[k])] + split[k + 1..]
  {
    var c := split[k];
    assert split[..k + 1] == split[..k] + [c];
    HalvesAppend(split[..k], [c]);
    assert [c][1..] == [];
    assert Halves([c]) == [Left(c), Right(c)];
    assert split[k..] == [c] + split[k + 1..];
  }

  lemma StepOnTrack(w: Weights, split: seq<Cluster>, k: nat, ordered: Cluster, part: Cluster -> real)
    requires Proper(part) && k < |split| && |split[k]| > 1
    requires Distinct(Flat(Row(split, k))) && OnTrack(w, Row(split, k), ordered, part)
    ensures Distinct(split[k]) && Distinct(Flat(Row(split, k + 1)))
    ensures OnTrack(SplitWeights(w, split[k], part(split[k])), Row(split, k + 1), ordered, part)
  {
    RowGrows(split, k);
    RowParts(Halves(split[..k]), split[k], split[k + 1..]);
    SplitStaysOnTrack(w, Halves(split[..k]), split[k], split[k + 1..], ordered, part);
  }

  lemma FirstRow(clusters: seq<Cluster>, w: Weights, ordered: Cluster, part: Cluster -> real)
    requires Proper(part) && Distinct(Flat(clusters)) && OnTrack(w, clusters, ordered, part)
    ensures Distinct(Flat(Row(Big(clusters), 0))) && OnTrack(w, Row(Big(clusters), 0), ordered, part)
  {
    assert Row(Big(clusters), 0) == Big(clusters);
    forall x | x in w ensures Due(Big(clusters), x, part) == Due(clusters, x, part) {
      BigKeepsDue(clusters, x, part);
    }
    BigKeepsDue(clusters, 0, part);
  }

  lemma {:induction false} LastRow(clusters: seq<Cluster>)
    ensures Row(Big(clusters), |Big(clusters)|) == Halves(clusters)
  {
    assert Big(clusters)[..|Big(clusters)|] == Big(clusters);
    HalvesOfBig(clusters);
  }

  lemma {:induction false} HalvesOfBig(clusters: seq<Cluster>)
    ensures Halves(Big(clusters)) == Halves(clusters)
  {
    if clusters != [] {
      HalvesOfBig(clusters[1..]);
      if |clusters[0]| > 1 {
        var c, rest := clusters[0], Big(clusters[1..]);
        HalvesAppend([c], rest);
        assert [c][1..] == [];
        assert Halves([c]) == [Left(c), Right(c)];
      } else {
        assert Big(clusters) == Big(clusters[1..]);
      }
    }
  }

  // ----------------------------------------- what every step of a level conserves

  /** All names of c have weight v. */
  ghost predicate Weighs(w: Weights, c: Cluster, v: real) {
    forall x :: x in c ==> x in w && w[x] == v
  }

  /** The names of one cluster share one weight. */
  ghost predicate Uniform(w: Weights, c: Cluster) {
    exists v :: Weighs(w, c, v)
  }

  ghost predicate AllUniform(w: Weights, row: seq<Cluster>) {
    forall i :: 0 <= i < |row| ==> Uniform(w, row[i])
  }

  /** x is the first name of its cluster, or already finished. */
  ghost predicate Represents(row: seq<Cluster>, x: int) {
    forall i :: 0 <= i < |row| && x in row[i] ==> x == row[i][0]
  }

  /** One weight for each cluster of the row, and those of the finished names. */
  ghost function Representatives(w: Weights, row: seq<Cluster>): Weights {
    map x | x in w && Represents(row, x) :: w[x]
  }

  /** Clusters share one weight each, and those weights, with the finished ones, make a whole. */
  ghost predicate LevelKept(w: Weights, row: seq<Cluster>) {
    AllUniform(w, row) && Total(Representatives(w, row)) == 1.0
  }

  lemma RepresentsAppend(a: seq<Cluster>, b: seq<Cluster>, x: int)
    ensures Represents(a + b, x) <==> Represents(a, x) && Represents(b, x)
  {
    if Represents(a + b, x) {
      forall i | 0 <= i < |a| && x in a[i] ensures x == a[i][0] {
        assert (a + b)[i] == a[i];
      }
      forall i | 0 <= i < |b| && x in b[i] ensures x == b[i][0] {
        assert (a + b)[|a| + i] == b[i];
      }
    }
  }

  lemma RepresentsOne(c: Cluster, x: int)
    ensures Represents([c], x) <==> (x in c ==> x == c[0])
  {
    assert [c][0] == c;
  }

  lemma {:induction false} InFlat(row: seq<Cluster>, i: nat, x: int)
    requires i < |row| && x in row[i]
    ensures x in Flat(row)
  {
    if i > 0 {
      InFlat(row[1..], i - 1, x);
    }
  }

  lemma OutsideFlat(row: seq<Cluster>, x: int)
    requires x !in Flat(row)
    ensures Represents(row, x)
  {
    if !Represents(row, x) {
      var i :| 0 <= i < |row| && x in row[i] && x != row[i][0];
      InFlat(row, i, x);
    }
  }

  /** Splitting c makes the first name of its right half a representative too, and no other. */
  lemma SplitAddsOne(before: seq<Cluster>, c: Cluster, after: seq<Cluster>, x: int)
    requires |c| > 1 && Distinct(Flat(before + [c] + after))
    ensures Represents(before + [Left(c), Right(c)] + after, x)
      <==> Represents(before + [c] + after, x) || x == Right(c)[0]
  {
    var l, r := Left(c), Right(c);
    RowParts(before, c, after);
    HalvesSplit(c);
    RepresentsAppend(before + [c], after, x);
    RepresentsAppend(before, [c], x);
    RepresentsAppend(before + [l, r], after, x);
    RepresentsAppend(before, [l, r], x);
    RepresentsOne(c, x);
    assert Represents([l, r], x) <==> (x in l ==> x == l[0]) && (x in r ==> x == r[0]) by {
      assert [l, r][0] == l && [l, r][1] == r;
    }
    assert r[0] in r && c[0] == l[0] && l[0] in l;
    if x in c {
      OutsideFlatOf(before, after, c, x);
    }
  }

  lemma OutsideFlatOf(before: seq<Cluster>, after: seq<Cluster>, c: Cluster, x: int)
    requires x in c
    requires forall y :: y in Flat(before) ==> y !in c
    requires forall y :: y in Flat(after) ==> y !in c
    ensures Represents(before, x) && Represents(after, x)
  {
    OutsideFlat(before, x);
    OutsideFlat(after, x);
  }

  lemma UniformAppend(w: Weights, a: seq<Cluster>, b: seq<Cluster>)
    ensures AllUniform(w, a + b) <==> AllUniform(w, a) && AllUniform(w, b)
  {
    if AllUniform(w, a + b) {
      forall i | 0 <= i < |a| ensures Uniform(w, a[i]) {
        assert (a + b)[i] == a[i];
      }
      forall i | 0 <= i < |b| ensures Uniform(w, b[i]) {
        assert (a + b)[|a| + i] == b[i];
      }
    }
  }

  lemma SplitStaysUniform(w: Weights, before: seq<Cluster>, c: Cluster, after: seq<Cluster>, alpha: real)
    requires |c| > 1 && Distinct(Flat(before + [c] + after)) && AllUniform(w, before + [c] + after)
    ensures AllUniform(SplitWeights(w, c, alpha), before + [Left(c), Right(c)] + after) && Uniform(w, c)
  {
    var next := SplitWeights(w, c, alpha);
    RowParts(before, c, after);
    UniformAppend(w, before + [c], after);
    UniformAppend(w, before, [c]);
    assert [c][0] == c;
    OthersStayUniform(w, before, c, alpha);
    OthersStayUniform(w, after, c, alpha);
    HalfStaysUniform(w, c, alpha);
    UniformAppend(next, before, [Left(c), Right(c)]);
    UniformAppend(next, before + [Left(c), Right(c)], after);
  }

  lemma OthersStayUniform(w: Weights, row: seq<Cluster>, c: Cluster, alpha: real)
    requires AllUniform(w, row) && |c| > 1
    requires forall x :: x in Flat(row) ==> x !in c
    ensures AllUniform(SplitWeights(w, c, alpha), row)
  {
    forall i | 0 <= i < |row| ensures Uniform(SplitWeights(w, c, alpha), row[i]) {
      OtherStaysUniform(w, row, i, c, alpha);
    }
  }

  lemma SplitWeightAt(w: Weights, c: Cluster, alpha: real, x: int)
    requires x in w
    ensures x in SplitWeights(w, c, alpha) && SplitWeights(w, c, alpha)[x] == SplitWeight(w[x], c, x, alpha)
  {
  }

  lemma OtherStaysUniform(w: Weights, row: seq<Cluster>, i: nat, c: Cluster, alpha: real)
    requires i < |row| && Uniform(w, row[i]) && |c| > 1
    requires forall x :: x in Flat(row) ==> x !in c
    ensures Uniform(SplitWeights(w, c, alpha), row[i])
  {
    var v :| Weighs(w, row[i], v);
    forall x | x in row[i] ensures x in SplitWeights(w, c, alpha) && SplitWeights(w, c, alpha)[x] == v {
      InFlat(row, i, x);
      assert c == Left(c) + Right(c);
      SplitWeightAt(w, c, alpha, x);
    }
    assert Weighs(SplitWeights(w, c, alpha), row[i], v);
  }

  lemma HalfStaysUniform(w: Weights, c: Cluster, alpha: real)
    requires Uniform(w, c) && |c| > 1 && Distinct(c)
    ensures Uniform(SplitWeights(w, c, alpha), Left(c)) && Uniform(SplitWeights(w, c, alpha), Right(c))
  {
    HalvesSplit(c);
    var v :| Weighs(w, c, v);
    forall x | x in Left(c) ensures x in SplitWeights(w, c, alpha) && SplitWeights(w, c, alpha)[x] == Times(v, alpha) {
      SplitWeightAt(w, c, alpha, x);
    }
    forall x | x in Right(c)
      ensures x in SplitWeights(w, c, alpha) && SplitWeights(w, c, alpha)[x] == Times(v, 1.0 - alpha)
    {
      SplitWeightAt(w, c, alpha, x);
    }
    assert Weighs(SplitWeights(w, c, alpha), Left(c), Times(v, alpha));
    assert Weighs(SplitWeights(w, c, alpha), Right(c), Times(v, 1.0 - alpha));
  }

  lemma ShareOut(v: real, alpha: real)
    ensures Times(v, alpha) + Times(v, 1.0 - alpha) == v
  {
  }

  /** Splitting one cluster conserves the level. */
  lemma SplitKeepsLevel(w: Weights, before: seq<Cluster>, c: Cluster, after: seq<Cluster>, alpha: real)
    requires |c| > 1 && Distinct(Flat(before + [c] + after)) && LevelKept(w, before + [c] + after)
    ensures LevelKept(SplitWeights(w, c, alpha), before + [Left(c), Right(c)] + after)
  {
    var a := Representatives(w, before + [c] + after);
    var b := Representatives(SplitWeights(w, c, alpha), before + [Left(c), Right(c)] + after);
    SplitStaysUniform(w, before, c, after, alpha);
    RepresentativesAfter(w, before, c, after, alpha);
    TotalRemove(a, c[0]);
    TotalRemove(b, c[0]);
    TotalRemove(b - {c[0]}, Right(c)[0]);
    ShareOut(w[c[0]], alpha);
  }

  lemma RepresentativesAfter(w: Weights, before: seq<Cluster>, c: Cluster, after: seq<Cluster>, alpha: real)
    requires |c| > 1 && Distinct(Flat(before + [c] + after)) && Uniform(w, c)
    ensures var a, b := Representatives(w, before + [c] + after),
                        Representatives(SplitWeights(w, c, alpha), before + [Left(c), Right(c)] + after);
      var first, second := c[0], Right(c)[0];
      && first in a && first in b && second in b - {first}
      && a[first] == w[first] && b[first] == Times(w[first], alpha) && b[second] == Times(w[first], 1.0 - alpha)
      && b - {first} - {second} == a - {first}
  {
    var a := Representatives(w, before + [c] + after);
    var b := Representatives(SplitWeights(w, c, alpha), before + [Left(c), Right(c)] + after);
    var first, second := c[0], Right(c)[0];
    RowParts(before, c, after);
    HalvesSplit(c);
    assert first in Left(c) && second in Right(c) && first in c && second in c;
    forall x
      ensures Represents(before + [Left(c), Right(c)] + after, x)
        <==> Represents(before + [c] + after, x) || x == second
    {
      SplitAddsOne(before, c, after, x);
    }
    assert Represents(before + [c] + after, first) && !Represents(before + [c] + after, second) by {
      RepresentsAppend(before + [c], after, first);
      RepresentsAppend(before, [c], first);
      OutsideFlatOf(before, after, c, first);
      assert (before + [c] + after)[|before|] == c;
    }
    forall x | x in a && x != first ensures x !in c {
      assert (before + [c] + after)[|before|] == c;
    }
    forall x ensures x in b - {first} - {second} <==> x in a - {first} {
    }
    assert (b - {first} - {second}).Keys == (a - {first}).Keys;
    assert forall x :: x in a - {first} ==> (b - {first} - {second})[x] == (a - {first})[x];
  }

  /** Clusters of a single name are finished: dropping them changes no representative. */
  lemma {:induction false} SinglesRepresentThemselves(clusters: seq<Cluster>, x: int)
    requires NonEmpty(clusters)
    ensures Represents(Big(clusters), x) <==> Represents(clusters, x)
  {
    if clusters != [] {
      var c, rest := clusters[0], clusters[1..];
      SinglesRepresentThemselves(rest, x);
      RepresentsAppend([c], rest, x);
      RepresentsAppend([c], Big(rest), x);
      assert clusters == [c] + rest;
      RepresentsOne(c, x);
      if |c| > 1 {
        assert Big(clusters) == [c] + Big(rest);
      } else {
        assert Big(clusters) == Big(rest);
      }
    }
  }

  lemma {:induction false} BigIsPart(clusters: seq<Cluster>, w: Weights)
    requires AllUniform(w, clusters)
    ensures AllUniform(w, Big(clusters))
  {
    if clusters != [] {
      BigIsPart(clusters[1..], w);
    }
  }

  lemma FirstRowKept(clusters: seq<Cluster>, w: Weights)
    requires NonEmpty(clusters) && LevelKept(w, clusters)
    ensures LevelKept(w, Row(Big(clusters), 0))
  {
    assert Row(Big(clusters), 0) == Big(clusters);
    BigIsPart(clusters, w);
    forall x ensures Represents(Big(clusters), x) <==> Represents(clusters, x) {
      SinglesRepresentThemselves(clusters, x);
    }
    assert Representatives(w, Big(clusters)) == Representatives(w, clusters);
  }

  lemma PairKeepsLevel(w: Weights, split: seq<Cluster>, k: nat, alpha: real)
    requires k < |split| && |split[k]| > 1 && Distinct(Flat(Row(split, k))) && LevelKept(w, Row(split, k))
    ensures LevelKept(Scaled(Scaled(w, Left(split[k]), alpha), Right(split[k]), 1.0 - alpha), Row(split, k + 1))
  {
    RowGrows(split, k);
    RowParts(Halves(split[..k]), split[k], split[k + 1..]);
    ScalingBothHalves(w, split[k], alpha);
    SplitKeepsLevel(w, Halves(split[..k]), split[k], split[k + 1..], alpha);
  }

  lemma StartIsKept(ordered: Cluster)
    requires ordered != [] && Distinct(ordered)
    ensures LevelKept(map x | x in ordered :: 1.0, [ordered])
  {
    var w: Weights := map x | x in ordered :: 1.0;
    assert Weighs(w, ordered, 1.0);
    var reps := Representatives(w, [ordered]);
    assert [ordered][0] == ordered && ordered[0] in ordered;
    assert reps.Keys == {ordered[0]};
    assert reps == map[ordered[0] := 1.0];
    TotalRemove(reps, ordered[0]);
    assert reps - {ordered[0]} == map[];
  }

  /** The part of a split that goes to the left half, of variance v against the right one's w. */
  function Alpha(v: real, w: real): (alpha: real)
    requires v > 0.0 && w > 0.0
    ensures 0.0 < alpha < 1.0
  {
    AlphaAlgebra(v, w);
    1.0 - v / (v + w)
  }

  lemma AlphaAlgebra(v: real, w: real)
    requires v > 0.0 && w > 0.0
    ensures 0.0 < 1.0 - v / (v + w) < 1.0
    ensures Times(1.0 - v / (v + w), v) == Times(1.0 - (1.0 - v / (v + w)), w)
  {
    var a, s := v / (v + w), v + w;
    assert a * s == v;
    assert a > 0.0;
    assert a < 1.0 by {
      if a >= 1.0 {
        MulMono(1.0, a, s);
        assert false;
      }
    }
    assert v - a * v == a * w;
  }

  /** The inverse-variance part of the split of c. */
  ghost function PartOf(c: Cluster, variance: Cluster -> real): (alpha: real)
    requires Positive(variance)
    ensures |c| > 1 ==> 0.0 < alpha < 1.0
  {
    if |c| > 1 then Alpha(variance(Left(c)), variance(Right(c))) else 1.0
  }

  ghost function InverseVariance(variance: Cluster -> real): (part: Cluster -> real)
    requires Positive(variance)
    ensures Proper(part) && SplitsBy(part, variance)
  {
    c => PartOf(c, variance)
  }

  ghost predicate SplitsBy(part: Cluster -> real, variance: Cluster -> real)
    requires Positive(variance)
  {
    forall c {:trigger PartOf(c, variance)} :: part(c) == PartOf(c, variance)
  }

  /** The part of the left one of two siblings. */
  method SiblingPart(left: Cluster, right: Cluster, variance: Cluster -> real, ghost c: Cluster,
                     ghost part: Cluster -> real)
    returns (alpha: real)
    requires Positive(variance) && SplitsBy(part, variance)
    requires |c| > 1 && left == Left(c) && right == Right(c)
    ensures alpha == part(c)
  {
    alpha := Alpha(variance(left), variance(right));
    assert alpha == PartOf(c, variance);
  }

  /** One sibling pair: multiplying the two halves of cluster k by its parts advances the row. */
  lemma PairOnTrack(w: Weights, split: seq<Cluster>, k: nat, alpha: real, ordered: Cluster, part: Cluster -> real)
    requires Proper(part) && k < |split| && |split[k]| > 1 && alpha == part(split[k])
    requires Distinct(Flat(Row(split, k))) && OnTrack(w, Row(split, k), ordered, part)
    ensures Distinct(Flat(Row(split, k + 1)))
    ensures OnTrack(Scaled(Scaled(w, Left(split[k]), alpha), Right(split[k]), 1.0 - alpha), Row(split, k + 1),
                    ordered, part)
  {
    StepOnTrack(w, split, k, ordered, part);
    ScalingBothHalves(w, split[k], alpha);
  }

  /** A row of the loop: its names are distinct, its weights on track, its level conserved. */
  ghost predicate Going(w: Weights, row: seq<Cluster>, ordered: Cluster, part: Cluster -> real)
    requires Proper(part)
  {
    Distinct(Flat(row)) && OnTrack(w, row, ordered, part) && LevelKept(w, row)
  }

  lemma FirstRowGoes(clusters: seq<Cluster>, w: Weights, ordered: Cluster, part: Cluster -> real)
    requires Proper(part) && NonEmpty(clusters) && Going(w, clusters, ordered, part)
    ensures Going(w, Row(Big(clusters), 0), ordered, part)
  {
    FirstRow(clusters, w, ordered, part);
    FirstRowKept(clusters, w);
  }

  /** Splits the weight of cluster k of the level between its two halves, which lie side by side. */
  method ScalePair(w: Weights, halves: seq<Cluster>, i: nat, variance: Cluster -> real,
                   ghost clusters: seq<Cluster>, ghost k: nat, ghost ordered: Cluster, ghost part: Cluster -> real)
    returns (scaled: Weights)
    requires Positive(variance) && Proper(part) && SplitsBy(part, variance)
    requires halves == Halves(clusters) && |halves| == 2 * |Big(clusters)| && i == 2 * k && k < |Big(clusters)|
    requires Going(w, Row(Big(clusters), k), ordered, part)
    ensures Going(scaled, Row(Big(clusters), k + 1), ordered, part)
  {
    ghost var split := Big(clusters);
    PairAt(clusters, k);
    var left, right := halves[i], halves[i + 1];
    var alpha := SiblingPart(left, right, variance, split[k], part);
    PairGoesOn(w, split, k, alpha, ordered, part);
    scaled := Scaled(w, left, alpha);
    scaled := Scaled(scaled, right, 1.0 - alpha);
  }

  lemma PairGoesOn(w: Weights, split: seq<Cluster>, k: nat, alpha: real, ordered: Cluster, part: Cluster -> real)
    requires Proper(part) && k < |split| && |split[k]| > 1 && alpha == part(split[k])
    requires Going(w, Row(split, k), ordered, part)
    ensures Going(Scaled(Scaled(w, Left(split[k]), alpha), Right(split[k]), 1.0 - alpha), Row(split, k + 1),
                  ordered, part)
  {
    PairOnTrack(w, split, k, alpha, ordered, part);
    PairKeepsLevel(w, split, k, alpha);
  }

  lemma LevelDone(w: Weights, clusters: seq<Cluster>, k: nat, ordered: Cluster, part: Cluster -> real)
    requires Proper(part) && k == |Big(clusters)| && Going(w, Row(Big(clusters), k), ordered, part)
    ensures Going(w, Halves(clusters), ordered, part)
  {
    LastRow(clusters);
  }

  /** One level: the weights of the two clusters of every sibling pair get their inverse-variance parts. */
  method BisectLevel(clusters: seq<Cluster>, weights: Weights, variance: Cluster -> real,
                     ghost ordered: Cluster, ghost part: Cluster -> real)
    returns (scaled: Weights)
    requires Positive(variance) && Proper(part) && SplitsBy(part, variance)
    requires NonEmpty(clusters) && Going(weights, clusters, ordered, part)
    ensures Going(scaled, Halves(clusters), ordered, part)
  {
    var halves := Halves(clusters);
    ghost var split := Big(clusters);
    TwoPerSplit(clusters);
    FirstRowGoes(clusters, weights, ordered, part);
    scaled := weights;
    var i := 0;
    ghost var k := 0;
    while i < |halves|
      invariant i == 2 * k && 0 <= k <= |split|
      invariant Going(scaled, Row(split, k), ordered, part)
    {
      scaled := ScalePair(scaled, halves, i, variance, clusters, k, ordered, part);
      i, k := i + 2, k + 1;
    }
    LevelDone(scaled, clusters, k, ordered, part);
  }

  // ------------------------------------------------------------- the whole run

  ghost predicate AreItems(cols: Cluster, order: seq<int>) {
    forall i :: 0 <= i < |order| ==> 0 <= order[i] < |cols|
  }

  /** The items of the columns in the order of the dendrogram's leaves. */
  function Pick(cols: Cluster, order: seq<int>): (ordered: Cluster)
    requires AreItems(cols, order)
    ensures |ordered| == |order|
  {
    seq(|order|, i requires 0 <= i < |order| => cols[order[i]])
  }

  lemma PickIsPermutation(cols: Cluster, order: seq<int>)
    requires Distinct(cols) && multiset(order) == multiset(Span(0, |cols|))
    ensures AreItems(cols, order) && Distinct(Pick(cols, order))
    ensures forall x :: x in Pick(cols, order) <==> x in cols
  {
    OrderListsOnce(order, |cols|);
    assert forall i :: 0 <= i < |order| ==> order[i] in order;
    forall x | x in cols ensures x in Pick(cols, order) {
      var v :| 0 <= v < |cols| && cols[v] == x;
      assert v in order;
      var i :| 0 <= i < |order| && order[i] == v;
      assert Pick(cols, order)[i] == x;
    }
  }

  lemma StartOnTrack(ordered: Cluster, part: Cluster -> real)
    requires Proper(part) && Distinct(ordered)
    ensures OnTrack(map x | x in ordered :: 1.0, [ordered], ordered, part)
    ensures Flat([ordered]) == ordered
  {
    ShareKeys(ordered, part);
    var w: Weights := map x | x in ordered :: 1.0;
    assert [ordered][1..] == [];
    forall x | x in w ensures Times(w[x], Due([ordered], x, part)) == Shares(ordered, part)[x] {
      TimesOne(Due([ordered], x, part));
    }
  }

  lemma TimesOne(v: real)
    ensures Times(1.0, v) == v && Times(v, 1.0) == v
  {
  }

  lemma DoneOnTrack(w: Weights, ordered: Cluster, part: Cluster -> real)
    requires Proper(part) && OnTrack(w, [], ordered, part)
    ensures w == Shares(ordered, part)
  {
    forall x | x in w ensures w[x] == Shares(ordered, part)[x] {
      TimesOne(w[x]);
    }
  }

  lemma HalvesAreNonEmpty(clusters: seq<Cluster>)
    ensures NonEmpty(Halves(clusters))
  {
  }

  /**
   * Bisects the ordered names level by level until every cluster is a single name: the weights are those of
   * recursive inverse-variance bisection, all positive, and sum to exactly one.
   */
  method Bisect(ordered: Cluster, variance: Cluster -> real) returns (weights: Weights)
    requires Positive(variance) && ordered != [] && Distinct(ordered)
    ensures weights == Shares(ordered, InverseVariance(variance))
    ensures forall x :: x in weights <==> x in ordered
    ensures AllPositive(weights) && Total(weights) == 1.0
  {
    ghost var part := InverseVariance(variance);
    weights := map x | x in ordered :: 1.0;
    var clusters := [ordered];
    StartOnTrack(ordered, part);
    StartIsKept(ordered);
    while clusters != []
      invariant NonEmpty(clusters) && Going(weights, clusters, ordered, part)
      decreases Measure(clusters)
    {
      MeasureDrops(clusters);
      HalvesAreNonEmpty(clusters);
      weights := BisectLevel(clusters, weights, variance, ordered, part);
      clusters := Halves(clusters);
    }
    DoneOnTrack(weights, ordered, part);
    ShareKeys(ordered, part);
    SharesArePositive(ordered, part);
    SharesSumToOne(ordered, part);
  }

  /** At every split the two halves' masses are inversely proportional to their variances. */
  lemma SplitIsInverseVariance(c: Cluster, variance: Cluster -> real)
    requires Positive(variance) && |c| > 1 && Distinct(c)
    ensures var w := Shares(c, InverseVariance(variance));
      Times(Total(Within(w, Left(c))), variance(Left(c))) == Times(Total(Within(w, Right(c))), variance(Right(c)))
  {
    var part := InverseVariance(variance);
    HalvesGetTheirParts(c, part);
    PartBalances(c, variance, part, Total(Within(Shares(c, part), Left(c))), Total(Within(Shares(c, part), Right(c))));
  }

  lemma PartBalances(c: Cluster, variance: Cluster -> real, part: Cluster -> real, left: real, right: real)
    requires Positive(variance) && SplitsBy(part, variance) && |c| > 1
    requires left == part(c) && right == 1.0 - part(c)
    ensures Times(left, variance(Left(c))) == Times(right, variance(Right(c)))
  {
    assert part(c) == PartOf(c, variance);
    AlphaAlgebra(variance(Left(c)), variance(Right(c)));
  }

  /** d comes from c by taking the first or the second half, any number of times. */
  ghost predicate HalvedInto(c: Cluster, d: Cluster)
    decreases |c|
  {
    d == c || (|c| > 1 && (HalvedInto(c[..|c| / 2], d) || HalvedInto(c[|c| / 2..], d)))
  }

  /** The two halves of d share its weight in inverse proportion to their variances. */
  ghost predicate BalancedAt(w: Weights, d: Cluster, variance: Cluster -> real)
    requires |d| > 1
  {
    Times(Total(Within(w, d[..|d| / 2])), variance(d[..|d| / 2]))
    == Times(Total(Within(w, d[|d| / 2..])), variance(d[|d| / 2..]))
  }

  lemma {:induction false} HalvedIsPart(c: Cluster, d: Cluster)
    requires HalvedInto(c, d) && Distinct(c)
    ensures Distinct(d) && forall x :: x in d ==> x in c
    decreases |c|
  {
    if d != c {
      HalvesSplit(c);
      if HalvedInto(Left(c), d) {
        HalvedIsPart(Left(c), d);
      } else {
        HalvedIsPart(Right(c), d);
      }
    }
  }

  /** What falls on some names of one half is their mass within the half, times the half's part. */
  lemma MassInHalf(c: Cluster, half: Cluster, f: real, e: Cluster, part: Cluster -> real)
    requires Proper(part) && |c| > 1 && Distinct(c)
    requires (half == Left(c) && f == part(c)) || (half == Right(c) && f == 1.0 - part(c))
    requires forall x :: x in e ==> x in half
    ensures Total(Within(Shares(c, part), e)) == Times(Total(Within(Shares(half, part), e)), f)
  {
    forall x | x in e
      ensures x in Shares(c, part) && x in Shares(half, part) && Shares(c, part)[x] == Times(Shares(half, part)[x], f)
    {
      ShareInHalf(c, half, f, x, part);
    }
    PartScaled(Shares(half, part), Shares(c, part), e, f);
  }

  lemma PartScaled(m: Weights, r: Weights, e: Cluster, f: real)
    requires forall x :: x in e ==> x in m && x in r && r[x] == Times(m[x], f)
    ensures Total(Within(r, e)) == Times(Total(Within(m, e)), f)
  {
    var a, b := Within(m, e), Within(r, e);
    forall x ensures x in a <==> x in b {
      assert x in a <==> x in e;
      assert x in b <==> x in e;
    }
    assert a.Keys == b.Keys;
    forall x | x in b ensures b[x] == Times(a[x], f) {
      assert x in e;
    }
    TotalScale(a, b, f);
  }

  lemma MixAt(l: Weights, r: Weights, alpha: real, half: Weights, f: real, x: int)
    requires l.Keys !! r.Keys && x in half
    requires (half == l && f == alpha) || (half == r && f == 1.0 - alpha)
    ensures x in Mix(l, r, alpha) && Mix(l, r, alpha)[x] == Times(half[x], f)
  {
  }

  lemma SharesHalfKeys(c: Cluster, part: Cluster -> real)
    requires Proper(part) && |c| > 1 && Distinct(c)
    ensures forall x :: x in Left(c) ==> x in Shares(Left(c), part)
    ensures forall x :: x in Right(c) ==> x in Shares(Right(c), part)
  {
    HalvesSplit(c);
    ShareKeys(Left(c), part);
    ShareKeys(Right(c), part);
  }

  lemma ShareInHalf(c: Cluster, half: Cluster, f: real, x: int, part: Cluster -> real)
    requires Proper(part) && |c| > 1 && Distinct(c) && x in half
    requires (half == Left(c) && f == part(c)) || (half == Right(c) && f == 1.0 - part(c))
    ensures x in Shares(c, part) && x in Shares(half, part) && Shares(c, part)[x] == Times(Shares(half, part)[x], f)
  {
    SharesHalfKeys(c, part);
    DisjointHalves(c, part);
    SplitIsMix(c, part);
    MixAt(Shares(Left(c), part), Shares(Right(c), part), part(c), Shares(half, part), f, x);
  }

  lemma BalanceScales(l: real, r: real, f: real, v: real, u: real)
    requires Times(l, v) == Times(r, u)
    ensures Times(Times(l, f), v) == Times(Times(r, f), u)
  {
    assert l * f * v == (l * v) * f && r * f * u == (r * u) * f;
  }

  /** Wherever recursive bisection splits, the two halves' weights are inversely proportional to their variances. */
  lemma {:induction false} EverySplitBalances(c: Cluster, d: Cluster, variance: Cluster -> real)
    requires Positive(variance) && Distinct(c) && HalvedInto(c, d) && |d| > 1
    ensures BalancedAt(Shares(c, InverseVariance(variance)), d, variance)
    decreases |c|
  {
    if d == c {
      SplitIsInverseVariance(c, variance);
    } else {
      HalvesSplit(c);
      if HalvedInto(Left(c), d) {
        BalancedInHalf(c, Left(c), InverseVariance(variance)(c), d, variance);
      } else {
        BalancedInHalf(c, Right(c), 1.0 - InverseVariance(variance)(c), d, variance);
      }
    }
  }

  lemma {:induction false} BalancedInHalf(c: Cluster, half: Cluster, f: real, d: Cluster, variance: Cluster -> real)
    requires Positive(variance) && |c| > 1 && Distinct(c) && Distinct(half) && |half| < |c|
    requires var part := InverseVariance(variance);
      (half == Left(c) && f == part(c)) || (half == Right(c) && f == 1.0 - part(c))
    requires HalvedInto(half, d) && |d| > 1
    ensures BalancedAt(Shares(c, InverseVariance(variance)), d, variance)
    decreases |c|, 0
  {
    var part := InverseVariance(variance);
    EverySplitBalances(half, d, variance);
    HalvedIsPart(half, d);
    MassInHalf(c, half, f, d[..|d| / 2], part);
    MassInHalf(c, half, f, d[|d| / 2..], part);
    var w := Shares(half, part);
    BalanceScales(Total(Within(w, d[..|d| / 2])), Total(Within(w, d[|d| / 2..])), f,
                  variance(d[..|d| / 2]), variance(d[|d| / 2..]));
  }

  /** The columns, one after the other as the items of the order say. */
  ghost predicate InOrderOf(cols: Cluster, order: seq<int>, ordered: Cluster) {
    |ordered| == |order| && forall i :: 0 <= i < |order| ==> 0 <= order[i] < |cols| && ordered[i] == cols[order[i]]
  }

  ghost predicate EveryBalance(w: Weights, ordered: Cluster, variance: Cluster -> real) {
    forall d :: |d| > 1 && HalvedInto(ordered, d) ==> BalancedAt(w, d, variance)
  }

  lemma AllBalance(w: Weights, cols: Cluster, order: seq<int>, variance: Cluster -> real)
    requires Positive(variance) && AreItems(cols, order) && Distinct(Pick(cols, order))
    requires w == Shares(Pick(cols, order), InverseVariance(variance))
    ensures forall ordered :: InOrderOf(cols, order, ordered) ==> EveryBalance(w, ordered, variance)
  {
    forall ordered | InOrderOf(cols, order, ordered) ensures EveryBalance(w, ordered, variance) {
      assert ordered == Pick(cols, order);
      forall d | |d| > 1 && HalvedInto(ordered, d) ensures BalancedAt(w, d, variance) {
        EverySplitBalances(ordered, d, variance);
      }
    }
  }

  /** A single column gets everything; otherwise the dendrogram orders the columns and the order is bisected. */
  method HierarchicalRiskParity(cols: Cluster, link: Linkage, variance: Cluster -> real) returns (weights: Weights)
    requires Positive(variance) && cols != [] && Distinct(cols)
    requires |cols| > 1 ==> link.Valid() && link.size == |cols|
    ensures |cols| > 1 ==>
      var leaves := link.Leaves(link.Root());
      AreItems(cols, leaves) && weights == Shares(Pick(cols, leaves), InverseVariance(variance))
    // Every split of the columns in that order is by inverse variance.
    ensures |cols| > 1 ==> forall ordered :: InOrderOf(cols, link.Leaves(link.Root()), ordered) ==>
      EveryBalance(weights, ordered, variance)
    ensures forall x :: x in weights <==> x in cols
    ensures AllPositive(weights) && Total(weights) == 1.0
  {
    if |cols| == 1 {
      weights := map[cols[0] := 1.0];
      SingleShare(cols[0], InverseVariance(variance));
    } else {
      var order := QuasiDiagonal(link);
      PickIsPermutation(cols, order);
      weights := Bisect(Pick(cols, order), variance);
      AllBalance(weights, cols, order, variance);
    }
  }
}
