/** Splits of event-ordered samples that respect time: walk-forward windows and purged k-fold. */
module Splitters {
  import opened Prelude

  datatype SplitError = NonPositiveSize | NonPositiveStep | ShapeMismatch | EndBeforeStart | TooFewSplits
  datatype Result<+T> = Ok(value: T) | Err(error: SplitError)

  /** Positions of the training and the test samples of one split. */
  datatype Fold = Fold(train: seq<int>, test: seq<int>)

  /** The positions from a up to but excluding b. */
  function Range(a: int, b: int): (r: seq<int>)
    requires a <= b
    ensures |r| == b - a && forall i :: 0 <= i < |r| ==> r[i] == a + i
  {
    seq(b - a, i => a + i)
  }

  // ---------------------------------------------------------------- walk-forward

  /** The window that starts its walk at pos. */
  function WindowAt(pos: int, trainSize: int, testSize: int, expanding: bool): Fold
    requires 0 <= pos && 0 < trainSize && 0 < testSize
  {
    var trainEnd := pos + trainSize;
    Fold(Range(if expanding then 0 else pos, trainEnd), Range(trainEnd, trainEnd + testSize))
  }

  /** Position of the k-th window. */
  function Step(k: int, step: int): int {
    k * step
  }

  lemma StepNext(k: int, step: int)
    ensures Step(k + 1, step) == Step(k, step) + step
  {
  }

  lemma StepNonNegative(k: int, step: int)
    requires k >= 0 && step > 0
    ensures Step(k, step) >= 0
  {
  }

  /** The windows from the first on, one step apart, and not one fewer than fit. */
  ghost predicate Walk(folds: seq<Fold>, n: int, trainSize: int, testSize: int, step: int, expanding: bool)
    requires 0 < trainSize && 0 < testSize && 0 < step
  {
    && (forall k {:trigger Step(k, step)} :: 0 <= k < |folds| ==>
      (StepNonNegative(k, step);
       folds[k] == WindowAt(Step(k, step), trainSize, testSize, expanding)
       && Step(k, step) + trainSize + testSize <= n))
    && Step(|folds|, step) + trainSize + testSize > n
  }

  method WalkForward(n: nat, trainSize: int, testSize: int, step: Option<int>, expanding: bool)
    returns (result: Result<seq<Fold>>)
    ensures result == Err(NonPositiveSize) <==> trainSize <= 0 || testSize <= 0
    ensures result == Err(NonPositiveStep) <==>
      trainSize > 0 && testSize > 0 && step.Some? && step.value <= 0
    ensures trainSize > 0 && testSize > 0 && !(step.Some? && step.value <= 0) ==>
      result.Ok? && Walk(result.value, n, trainSize, testSize, if step.Some? then step.value else testSize, expanding)
  {
    if trainSize <= 0 || testSize <= 0 {
      return Err(NonPositiveSize);
    }
    var stride := if step.Some? then step.value else testSize;
    if stride <= 0 {
      return Err(NonPositiveStep);
    }
    var folds: seq<Fold> := [];
    var pos := 0;
    assert Step(0, stride) == 0;
    while pos + trainSize + testSize <= n
      invariant pos == Step(|folds|, stride) && pos >= 0
      invariant forall k {:trigger Step(k, stride)} :: 0 <= k < |folds| ==>
        (StepNonNegative(k, stride);
         folds[k] == WindowAt(Step(k, stride), trainSize, testSize, expanding)
         && Step(k, stride) + trainSize + testSize <= n)
      decreases n - pos
    {
      StepNext(|folds|, stride);
      folds := folds + [WindowAt(pos, trainSize, testSize, expanding)];
      pos := pos + stride;
    }
    return Ok(folds);
  }

  /** Every training position precedes every test position, and both are positions of the samples. */
  lemma TrainPrecedesTest(folds: seq<Fold>, n: int, trainSize: int, testSize: int, step: int, expanding: bool, k: nat)
    requires 0 < trainSize && 0 < testSize && 0 < step
    requires Walk(folds, n, trainSize, testSize, step, expanding) && k < |folds|
    ensures forall i, j :: i in folds[k].train && j in folds[k].test ==> 0 <= i < j < n
    ensures folds[k].train != [] && |folds[k].test| == testSize
  {
    StepNonNegative(k, step);
    var pos := Step(k, step);
    assert folds[k] == WindowAt(pos, trainSize, testSize, expanding);
  }

  /**
   * The k-th window starts k steps in: it trains on as many positions as asked for, or in an expanding walk on all
   * before, and tests on those that follow; after the last window no other fits.
   */
  lemma WindowsAre(folds: seq<Fold>, n: int, trainSize: int, testSize: int, step: int, expanding: bool, k: nat)
    requires 0 < trainSize && 0 < testSize && 0 < step
    requires Walk(folds, n, trainSize, testSize, step, expanding) && k < |folds|
    ensures |folds[k].test| == testSize && |folds[k].train| == trainSize + if expanding then k * step else 0
    ensures forall i :: 0 <= i < |folds[k].train| ==> folds[k].train[i] == if expanding then i else k * step + i
    ensures forall i :: 0 <= i < testSize ==> folds[k].test[i] == k * step + trainSize + i
    ensures k * step + trainSize + testSize <= n < |folds| * step + trainSize + testSize
  {
    StepNonNegative(k, step);
    assert folds[k] == WindowAt(Step(k, step), trainSize, testSize, expanding);
    assert Step(k, step) == k * step && Step(|folds|, step) == |folds| * step;
  }

  function Tests(folds: seq<Fold>): seq<int> {
    if folds == [] then [] else Tests(folds[..|folds| - 1]) + folds[|folds| - 1].test
  }

  /** At the default step the tests follow one another without gap or overlap. */
  lemma TestsTile(folds: seq<Fold>, n: int, trainSize: int, testSize: int, expanding: bool)
    requires 0 < trainSize && 0 < testSize
    requires Walk(folds, n, trainSize, testSize, testSize, expanding)
    ensures Step(|folds|, testSize) >= 0
    ensures Tests(folds) == Range(trainSize, trainSize + Step(|folds|, testSize))
    ensures folds != [] ==> n - testSize < trainSize + Step(|folds|, testSize) <= n
  {
    StepNonNegative(|folds|, testSize);
    TestsTileUpTo(folds, n, trainSize, testSize, expanding, |folds|);
    assert folds[..|folds|] == folds;
    if folds != [] {
      StepNext(|folds| - 1, testSize);
    }
  }

  lemma {:induction false} TestsTileUpTo(folds: seq<Fold>, n: int, trainSize: int, testSize: int, expanding: bool,
                                         k: nat)
    requires 0 < trainSize && 0 < testSize && k <= |folds|
    requires Walk(folds, n, trainSize, testSize, testSize, expanding)
    ensures Step(k, testSize) >= 0
    ensures Tests(folds[..k]) == Range(trainSize, trainSize + Step(k, testSize))
  {
    StepNonNegative(k, testSize);
    if k > 0 {
      TestsTileUpTo(folds, n, trainSize, testSize, expanding, k - 1);
      StepNext(k - 1, testSize);
      assert folds[..k][..k - 1] == folds[..k - 1];
      assert folds[k - 1] == WindowAt(Step(k - 1, testSize), trainSize, testSize, expanding);
    }
  }

  // --------------------------------------------------------------- purged k-fold

  datatype PurgedKFold = PurgedKFold(splits: int, embargo: real)

  /** Where block f of k starts when n positions are split as evenly as possible, longer blocks first. */
  function BlockStart(n: nat, k: int, f: int): int
    requires k > 0
  {
    Step(f, n / k) + if f < n % k then f else n % k
  }

  lemma BlocksAreEven(n: nat, k: int, f: int)
    requires k > 0 && 0 <= f < k
    ensures n / k <= BlockStart(n, k, f + 1) - BlockStart(n, k, f) <= n / k + 1
    ensures BlockStart(n, k, f) <= BlockStart(n, k, f + 1)
  {
    StepNext(f, n / k);
    QuotientNonNegative(n, k);
  }

  lemma QuotientNonNegative(n: nat, k: int)
    requires k > 0
    ensures n / k >= 0
  {
  }

  lemma BlocksCover(n: nat, k: int)
    requires k > 0
    ensures BlockStart(n, k, 0) == 0 && BlockStart(n, k, k) == n
  {
    assert n == k * (n / k) + n % k;
  }

  lemma {:induction false} BlockStartsGrow(n: nat, k: int, f: int, g: int)
    requires k > 0 && 0 <= f <= g <= k
    ensures BlockStart(n, k, f) <= BlockStart(n, k, g)
    decreases g - f
  {
    if f < g {
      BlockStartsGrow(n, k, f + 1, g);
      BlocksAreEven(n, k, f);
    }
  }

  lemma BlockBounds(n: nat, k: int, f: int)
    requires k > 0 && 0 <= f < k
    ensures 0 <= BlockStart(n, k, f) <= BlockStart(n, k, f + 1) <= n
  {
    BlocksCover(n, k);
    BlockStartsGrow(n, k, 0, f);
    BlocksAreEven(n, k, f);
    BlockStartsGrow(n, k, f + 1, k);
  }

  /** The positions of block f. */
  function Block(n: nat, k: int, f: int): seq<int>
    requires k > 0 && 0 <= f < k
  {
    BlockBounds(n, k, f);
    Range(BlockStart(n, k, f), BlockStart(n, k, f + 1))
  }

  /** Every position is in exactly one block. */
  lemma BlocksPartition(n: nat, k: int, i: int) returns (f: int)
    requires k > 0 && 0 <= i < n
    ensures 0 <= f < k && i in Block(n, k, f)
    ensures forall g :: 0 <= g < k && i in Block(n, k, g) ==> g == f
  {
    BlocksCover(n, k);
    f := 0;
    while BlockStart(n, k, f + 1) <= i
      invariant 0 <= f < k && BlockStart(n, k, f) <= i
      decreases k - f
    {
      f := f + 1;
    }
    BlockBounds(n, k, f);
    assert Block(n, k, f)[i - BlockStart(n, k, f)] == i;
    forall g | 0 <= g < k && i in Block(n, k, g) ensures g == f {
      if g < f {
        BlockStartsGrow(n, k, g + 1, f);
      } else if f < g {
        BlockStartsGrow(n, k, f + 1, g);
      }
    }
  }

  lemma {:induction false} RangesJoin(n: nat, k: int, f: nat)
    requires k > 0 && f <= k
    ensures BlockStart(n, k, f) >= 0
    ensures Blocks(n, k, f) == Range(0, BlockStart(n, k, f))
  {
    BlocksCover(n, k);
    if f > 0 {
      RangesJoin(n, k, f - 1);
      BlockBounds(n, k, f - 1);
    }
  }

  /** The first f blocks, one after the other. */
  function Blocks(n: nat, k: int, f: nat): seq<int>
    requires k > 0 && f <= k
  {
    if f == 0 then [] else Blocks(n, k, f - 1) + Block(n, k, f - 1)
  }

  lemma BlockSize(n: nat, k: int, f: int)
    requires k > 0 && 0 <= f < k
    ensures |Block(n, k, f)| == n / k + if f < n % k then 1 else 0
  {
    StepNext(f, n / k);
    BlockBounds(n, k, f);
  }

  /** A block is empty exactly if there are not enough positions to reach it. */
  lemma BlockIsEmptyIff(n: nat, k: int, f: int)
    requires k > 0 && 0 <= f < k
    ensures BlockStart(n, k, f) < BlockStart(n, k, f + 1) <==> f < n
    ensures |Block(n, k, f)| == 0 <==> f >= n
  {
    BlockSize(n, k, f);
    BlockBounds(n, k, f);
    QuotientIsZeroIff(n, k);
  }

  lemma QuotientIsZeroIff(n: nat, k: int)
    requires k > 0
    ensures if n < k then n / k == 0 && n % k == n else n / k > 0
  {
    if n < k {
      assert n / k == 0;
    } else {
      assert n == k * (n / k) + n % k;
    }
  }

  /**
   * The blocks, one after the other, are all positions in order; any two differ in size by at most one, and no block is
   * larger than one before it.
   */
  lemma BlocksAreAnEvenPartition(n: nat, k: int)
    requires k > 0
    ensures Blocks(n, k, k) == Range(0, n)
    ensures forall f, g :: 0 <= f < k && 0 <= g < k ==> |Block(n, k, f)| <= |Block(n, k, g)| + 1
    ensures forall f, g :: 0 <= f <= g < k ==> |Block(n, k, g)| <= |Block(n, k, f)|
  {
    RangesJoin(n, k, k);
    BlocksCover(n, k);
    forall f, g | 0 <= f <= g < k ensures |Block(n, k, g)| <= |Block(n, k, f)| {
      BlockSize(n, k, f);
      BlockSize(n, k, g);
    }
    forall f, g | 0 <= f < k && 0 <= g < k ensures |Block(n, k, f)| <= |Block(n, k, g)| + 1 {
      BlocksAreEven(n, k, f);
      BlocksAreEven(n, k, g);
    }
  }

  // ------------------------------------------------------ which samples are kept

  function Least(s: seq<int>): (m: int)
    requires s != []
    ensures m in s && forall i :: 0 <= i < |s| ==> m <= s[i]
  {
    if |s| == 1 then s[0]
    else
      var rest := Least(s[1..]);
      assert forall i :: 1 <= i < |s| ==> s[i] == s[1..][i - 1];
      if s[0] < rest then s[0] else rest
  }

  function Greatest(s: seq<int>): (m: int)
    requires s != []
    ensures m in s && forall i :: 0 <= i < |s| ==> s[i] <= m
  {
    if |s| == 1 then s[0]
    else
      var rest := Greatest(s[1..]);
      assert forall i :: 1 <= i < |s| ==> s[i] == s[1..][i - 1];
      if s[0] > rest then s[0] else rest
  }

  /** The label spans of the samples, from start to end. */
  datatype Spans = Spans(start: seq<int>, end: seq<int>) {
    ghost predicate Valid() {
      |start| == |end| && forall i :: 0 <= i < |start| ==> start[i] <= end[i]
    }

    /** Two samples' label spans have a point in common. */
    ghost predicate Overlap(i: int, j: int)
      requires |start| == |end| && 0 <= i < |start| && 0 <= j < |start|
    {
      start[i] <= end[j] && start[j] <= end[i]
    }
  }

  /** Sample i's span meets the hull of the block's spans. */
  ghost predicate MeetsHull(spans: Spans, lo: int, hi: int, i: int)
    requires |spans.start| == |spans.end| && 0 <= lo < hi <= |spans.start| && 0 <= i < |spans.start|
  {
    spans.end[i] >= Least(spans.start[lo..hi]) && spans.start[i] <= Greatest(spans.end[lo..hi])
  }

  /** Sample i is kept for training against the test block [lo, hi). */
  ghost predicate Kept(spans: Spans, lo: int, hi: int, embargo: int, i: int)
    requires |spans.start| == |spans.end| && 0 <= lo < hi <= |spans.start| && 0 <= i < |spans.start|
  {
    && !(lo <= i < hi)
    && !MeetsHull(spans, lo, hi, i)
    && !(hi <= i < hi + embargo)
  }

  /** A fold: its test block, and in order exactly the samples kept against it. */
  ghost predicate Purged(fold: Fold, spans: Spans, lo: int, hi: int, embargo: int)
    requires |spans.start| == |spans.end| && 0 <= lo < hi <= |spans.start|
  {
    && fold.test == Range(lo, hi)
    && (forall a, b :: 0 <= a < b < |fold.train| ==> fold.train[a] < fold.train[b])
    && (forall i :: i in fold.train <==> 0 <= i < |spans.start| && Kept(spans, lo, hi, embargo, i))
  }

  /** No label span kept for training overlaps any label span under test, and the embargoed buffer is empty. */
  lemma PurgeIsSound(fold: Fold, spans: Spans, lo: int, hi: int, embargo: int, i: int)
    requires |spans.start| == |spans.end| && 0 <= lo < hi <= |spans.start|
    requires Purged(fold, spans, lo, hi, embargo) && i in fold.train
    ensures 0 <= i < |spans.start| && i !in fold.test && !(hi <= i < hi + embargo)
    ensures forall j :: j in fold.test ==> 0 <= j < |spans.start| && !spans.Overlap(i, j)
  {
    forall j | j in fold.test ensures 0 <= j < |spans.start| && !spans.Overlap(i, j) {
      if spans.Overlap(i, j) {
        InsideTheHull(spans, lo, hi, i, j);
      }
    }
  }

  /** The samples come in event order: by the start of their label spans. */
  ghost predicate EventOrdered(spans: Spans) {
    forall a, b :: 0 <= a < b < |spans.start| ==> spans.start[a] <= spans.start[b]
  }

  /** Sample i is neither in the block nor in the buffer behind it, and overlaps no test span. */
  ghost predicate Unrelated(spans: Spans, lo: int, hi: int, embargo: int, i: int)
    requires |spans.start| == |spans.end| && 0 <= lo < hi <= |spans.start| && 0 <= i < |spans.start|
  {
    && !(lo <= i < hi)
    && !(hi <= i < hi + embargo)
    && forall j :: lo <= j < hi ==> !spans.Overlap(i, j)
  }

  lemma InHull(spans: Spans, lo: int, hi: int, j: int)
    requires |spans.start| == |spans.end| && 0 <= lo <= j < hi <= |spans.start|
    ensures Least(spans.start[lo..hi]) <= spans.start[j] && spans.end[j] <= Greatest(spans.end[lo..hi])
  {
    assert spans.start[lo..hi][j - lo] == spans.start[j];
    assert spans.end[lo..hi][j - lo] == spans.end[j];
  }

  lemma InsideTheHull(spans: Spans, lo: int, hi: int, i: int, j: int)
    requires |spans.start| == |spans.end| && 0 <= lo <= j < hi <= |spans.start| && 0 <= i < |spans.start|
    requires spans.Overlap(i, j)
    ensures MeetsHull(spans, lo, hi, i)
  {
    InHull(spans, lo, hi, j);
  }

  lemma PositionIn(s: seq<int>, lo: int, hi: int, x: int) returns (p: int)
    requires 0 <= lo <= hi <= |s| && x in s[lo..hi]
    ensures lo <= p < hi && s[p] == x
  {
    var slice := s[lo..hi];
    var i :| 0 <= i < |slice| && slice[i] == x;
    p := lo + i;
  }

  /** A test span that starts, and one that ends, where the hull does. */
  lemma HullIsReached(spans: Spans, lo: int, hi: int) returns (first: int, last: int)
    requires |spans.start| == |spans.end| && 0 <= lo < hi <= |spans.start|
    ensures lo <= first < hi && spans.start[first] == Least(spans.start[lo..hi])
    ensures lo <= last < hi && spans.end[last] == Greatest(spans.end[lo..hi])
  {
    first := PositionIn(spans.start, lo, hi, Least(spans.start[lo..hi]));
    last := PositionIn(spans.end, lo, hi, Greatest(spans.end[lo..hi]));
  }

  /** For samples in event order purging is exact, for any block: no sample is dropped without cause, gaps or not. */
  lemma PurgeIsExactInEventOrder(spans: Spans, lo: int, hi: int, embargo: int, i: int)
    requires spans.Valid() && EventOrdered(spans) && 0 <= lo < hi <= |spans.start| && 0 <= i < |spans.start|
    ensures Kept(spans, lo, hi, embargo, i) <==> Unrelated(spans, lo, hi, embargo, i)
  {
    if j :| lo <= j < hi && spans.Overlap(i, j) {
      InsideTheHull(spans, lo, hi, i, j);
    } else if !(lo <= i < hi) && MeetsHull(spans, lo, hi, i) {
      // Before the block the sample reaches the first test span, behind it the one that ends last.
      var first, last := HullIsReached(spans, lo, hi);
      assert spans.Overlap(i, if i < lo then first else last);
    }
  }

  /** Every point between the start and the end of the block's spans is in one of them. */
  ghost predicate Gapless(spans: Spans, lo: int, hi: int)
    requires |spans.start| == |spans.end| && 0 <= lo < hi <= |spans.start|
  {
    forall x :: Least(spans.start[lo..hi]) <= x <= Greatest(spans.end[lo..hi]) ==> Covered(spans, lo, hi, x)
  }

  ghost predicate Covered(spans: Spans, lo: int, hi: int, x: int)
    requires |spans.start| == |spans.end| && 0 <= lo < hi <= |spans.start|
  {
    exists j :: lo <= j < hi && spans.start[j] <= x <= spans.end[j]
  }

  /** Against this block exactly the unrelated samples are kept. */
  ghost predicate PurgeIsExact(spans: Spans, lo: int, hi: int, embargo: int)
    requires |spans.start| == |spans.end| && 0 <= lo < hi <= |spans.start|
  {
    forall i :: 0 <= i < |spans.start| ==> (Kept(spans, lo, hi, embargo, i) <==> Unrelated(spans, lo, hi, embargo, i))
  }

  /** If the test spans leave no gap, purging is exact whatever the order of the samples. */
  lemma GaplessPurgeIsExact(spans: Spans, lo: int, hi: int, embargo: int)
    requires spans.Valid() && 0 <= lo < hi <= |spans.start| && Gapless(spans, lo, hi)
    ensures PurgeIsExact(spans, lo, hi, embargo)
  {
    forall i | 0 <= i < |spans.start|
      ensures Kept(spans, lo, hi, embargo, i) <==> Unrelated(spans, lo, hi, embargo, i)
    {
      if j :| lo <= j < hi && spans.Overlap(i, j) {
        InsideTheHull(spans, lo, hi, i, j);
      } else if MeetsHull(spans, lo, hi, i) {
        InHull(spans, lo, hi, lo);
        SampleMeetsCover(spans, lo, hi, i, Least(spans.start[lo..hi]), Greatest(spans.end[lo..hi]));
      }
    }
  }

  /** A sample whose span meets a covered stretch overlaps a span of the block. */
  lemma SampleMeetsCover(spans: Spans, lo: int, hi: int, i: int, least: int, greatest: int)
    requires spans.Valid() && 0 <= lo < hi <= |spans.start| && 0 <= i < |spans.start|
    requires forall x :: least <= x <= greatest ==> Covered(spans, lo, hi, x)
    requires least <= greatest && spans.end[i] >= least && spans.start[i] <= greatest
    ensures exists j :: lo <= j < hi && spans.Overlap(i, j)
  {
    var x := if spans.start[i] < least then least else spans.start[i];
    assert Covered(spans, lo, hi, x);
    var j :| lo <= j < hi && spans.start[j] <= x <= spans.end[j];
    assert spans.Overlap(i, j);
  }

  /** The samples, followed by others. */
  function Followed(spans: Spans, more: Spans): Spans {
    Spans(spans.start + more.start, spans.end + more.end)
  }

  /** The block of some samples is the same block when others follow. */
  lemma SameBlock(spans: Spans, more: Spans, lo: int, hi: int)
    requires spans.Valid() && more.Valid() && 0 <= lo < hi <= |spans.start|
    ensures Followed(spans, more).Valid()
    ensures Gapless(Followed(spans, more), lo, hi) <==> Gapless(spans, lo, hi)
    ensures Followed(spans, more).start[lo..hi] == spans.start[lo..hi]
    ensures Followed(spans, more).end[lo..hi] == spans.end[lo..hi]
  {
    var all := Followed(spans, more);
    assert all.start[lo..hi] == spans.start[lo..hi] && all.end[lo..hi] == spans.end[lo..hi];
    forall x ensures Covered(all, lo, hi, x) <==> Covered(spans, lo, hi, x) {
      if j :| lo <= j < hi && all.start[j] <= x <= all.end[j] {
        assert spans.start[j] <= x <= spans.end[j];
      }
      if j :| lo <= j < hi && spans.start[j] <= x <= spans.end[j] {
        assert all.start[j] <= x <= all.end[j];
      }
    }
  }

  /** A sample in a gap between the test spans, appended, is unrelated to all of them, and dropped. */
  lemma SampleInGapIsDropped(spans: Spans, lo: int, hi: int, x: int)
    requires spans.Valid() && 0 <= lo < hi <= |spans.start|
    requires Least(spans.start[lo..hi]) <= x <= Greatest(spans.end[lo..hi]) && !Covered(spans, lo, hi, x)
    ensures var all := Followed(spans, Spans([x], [x]));
      && |all.start| == |all.end| == |spans.start| + 1
      && Unrelated(all, lo, hi, 0, |spans.start|) && !Kept(all, lo, hi, 0, |spans.start|)
  {
    var n, all := |spans.start|, Followed(spans, Spans([x], [x]));
    SameBlock(spans, Spans([x], [x]), lo, hi);
    assert all.start[n] == x && all.end[n] == x;
    UncoveredOverlapsNone(spans, all, lo, hi, n, x);
  }

  lemma UncoveredOverlapsNone(spans: Spans, all: Spans, lo: int, hi: int, n: int, x: int)
    requires |spans.start| == |spans.end| && |all.start| == |all.end|
    requires 0 <= lo < hi <= |spans.start| <= n < |all.start|
    requires all.start[n] == x == all.end[n] && !Covered(spans, lo, hi, x)
    requires forall j :: lo <= j < hi ==> all.start[j] == spans.start[j] && all.end[j] == spans.end[j]
    ensures forall j :: lo <= j < hi ==> !all.Overlap(n, j)
  {
  }

  /**
   * Out of event order the purge may drop too much. It is exact, whatever samples follow, exactly if the block's own
   * spans leave no gap.
   */
  lemma PurgeIsExactIffGapless(spans: Spans, lo: int, hi: int)
    requires spans.Valid() && 0 <= lo < hi <= |spans.start|
    ensures (forall more: Spans, embargo :: more.Valid() ==> PurgeIsExact(Followed(spans, more), lo, hi, embargo))
      <==> Gapless(spans, lo, hi)
  {
    if Gapless(spans, lo, hi) {
      forall more: Spans, embargo | more.Valid() ensures PurgeIsExact(Followed(spans, more), lo, hi, embargo) {
        SameBlock(spans, more, lo, hi);
        GaplessPurgeIsExact(Followed(spans, more), lo, hi, embargo);
      }
    } else {
      var x :| Least(spans.start[lo..hi]) <= x <= Greatest(spans.end[lo..hi]) && !Covered(spans, lo, hi, x);
      SampleInGapIsDropped(spans, lo, hi, x);
      assert !PurgeIsExact(Followed(spans, Spans([x], [x])), lo, hi, 0);
      assert Spans([x], [x]).Valid();
    }
  }

  /** An input out of event order: the last sample overlaps neither test span, yet is dropped for lying between them. */
  lemma PurgeOverGapsDropsTooMuch()
    ensures var spans := Spans([0, 10, 4], [1, 11, 5]);
      && spans.Valid() && !EventOrdered(spans) && !Gapless(spans, 0, 2)
      && !spans.Overlap(2, 0) && !spans.Overlap(2, 1) && !Kept(spans, 0, 2, 0, 2)
  {
    var spans := Spans([0, 10, 4], [1, 11, 5]);
    assert spans.start[0..2][0] == 0 && spans.end[0..2][1] == 11;
    assert spans.start[1] > spans.start[2];
    assert !Covered(spans, 0, 2, 4);
  }

  // ------------------------------------------------------------------- the split

  /** The positions whose mask is set, in order. */
  function Marked(mask: seq<bool>): seq<int> {
    if mask == [] then []
    else Marked(mask[..|mask| - 1]) + if mask[|mask| - 1] then [|mask| - 1] else []
  }

  lemma {:induction false} MarkedIsExact(mask: seq<bool>)
    ensures forall a, b :: 0 <= a < b < |Marked(mask)| ==> Marked(mask)[a] < Marked(mask)[b]
    ensures forall i :: i in Marked(mask) <==> 0 <= i < |mask| && mask[i]
  {
    if mask != [] {
      var init := mask[..|mask| - 1];
      MarkedIsExact(init);
      forall a | 0 <= a < |Marked(init)| ensures Marked(init)[a] < |init| {
        assert Marked(init)[a] in Marked(init);
      }
    }
  }

  /** Overwrites the mask with false from lo up to hi. */
  method Clear(mask: array<bool>, lo: int, hi: int)
    requires 0 <= lo <= hi <= mask.Length
    modifies mask
    ensures forall j :: 0 <= j < mask.Length ==> mask[j] == (old(mask[j]) && !(lo <= j < hi))
  {
    for i := lo to hi
      invariant forall j :: 0 <= j < mask.Length ==> mask[j] == (old(mask[j]) && !(lo <= j < i))
    {
      mask[i] := false;
    }
  }

  /** The mask of the samples whose span stays clear of [testStart, testEnd]. */
  method ClearOfHull(spans: Spans, testStart: int, testEnd: int) returns (mask: array<bool>)
    requires |spans.start| == |spans.end|
    ensures fresh(mask) && mask.Length == |spans.start|
    ensures forall j :: 0 <= j < mask.Length ==> mask[j] == !(spans.end[j] >= testStart && spans.start[j] <= testEnd)
  {
    mask := new bool[|spans.start|];
    for i := 0 to mask.Length
      invariant forall j :: 0 <= j < i ==> mask[j] == !(spans.end[j] >= testStart && spans.start[j] <= testEnd)
    {
      mask[i] := !(spans.end[i] >= testStart && spans.start[i] <= testEnd);
    }
  }

  /** The mask of the samples kept against a test block, overwritten in place for block and buffer. */
  method KeptMask(spans: Spans, lo: int, hi: int, embargo: int) returns (mask: array<bool>)
    requires spans.Valid() && 0 <= lo < hi <= |spans.start|
    ensures fresh(mask) && mask.Length == |spans.start|
    ensures forall i :: 0 <= i < mask.Length ==> mask[i] == Kept(spans, lo, hi, embargo, i)
  {
    var n := |spans.start|;
    var testStart, testEnd := Least(spans.start[lo..hi]), Greatest(spans.end[lo..hi]);
    mask := ClearOfHull(spans, testStart, testEnd);
    assert forall i :: 0 <= i < n ==> mask[i] == !MeetsHull(spans, lo, hi, i);
    Clear(mask, lo, hi);
    if embargo > 0 {
      Clear(mask, hi, if hi + embargo < n then hi + embargo else n);
    }
  }

  /** The training positions against one test block. */
  method TrainMask(spans: Spans, lo: int, hi: int, embargo: int) returns (train: seq<int>)
    requires spans.Valid() && 0 <= lo < hi <= |spans.start|
    ensures forall i :: i in train <==> 0 <= i < |spans.start| && Kept(spans, lo, hi, embargo, i)
    ensures forall a, b :: 0 <= a < b < |train| ==> train[a] < train[b]
  {
    var mask := KeptMask(spans, lo, hi, embargo);
    MarkedIsExact(mask[..]);
    train := Marked(mask[..]);
  }

  /** One fold for each non-empty block among the first f, in order. */
  ghost predicate SplitUpTo(folds: seq<Fold>, spans: Spans, splits: int, embargo: int, f: int)
    requires |spans.start| == |spans.end| && splits > 0 && 0 <= f <= splits
    decreases f
  {
    if f == 0 then folds == []
    else
      BlockBounds(|spans.start|, splits, f - 1);
      var lo, hi := BlockStart(|spans.start|, splits, f - 1), BlockStart(|spans.start|, splits, f);
      if lo == hi then SplitUpTo(folds, spans, splits, embargo, f - 1)
      else
        && folds != []
        && Purged(folds[|folds| - 1], spans, lo, hi, embargo)
        && SplitUpTo(folds[..|folds| - 1], spans, splits, embargo, f - 1)
  }

  lemma NextFold(folds: seq<Fold>, fold: Fold, spans: Spans, splits: int, embargo: int, f: int, lo: int, hi: int)
    requires |spans.start| == |spans.end| && splits > 0 && 0 <= f < splits
    requires lo == BlockStart(|spans.start|, splits, f) && hi == BlockStart(|spans.start|, splits, f + 1)
    requires 0 <= lo < hi <= |spans.start| && Purged(fold, spans, lo, hi, embargo)
    requires SplitUpTo(folds, spans, splits, embargo, f)
    ensures SplitUpTo(folds + [fold], spans, splits, embargo, f + 1)
  {
    assert (folds + [fold])[..|folds|] == folds;
  }

  /** The number of positions embargoed after a test block. */
  function EmbargoSize(config: PurgedKFold, n: nat): int {
    Round(Times(n as real, config.embargo))
  }

  /** One fold a non-empty block; the errors in the order the code checks them. */
  method Split(config: PurgedKFold, t0: seq<int>, t1: seq<int>) returns (result: Result<seq<Fold>>)
    ensures result == Err(ShapeMismatch) <==> |t0| != |t1|
    ensures result == Err(EndBeforeStart) <==> |t0| == |t1| && !Spans(t0, t1).Valid()
    ensures result == Err(TooFewSplits) <==> Spans(t0, t1).Valid() && config.splits < 2
    ensures Spans(t0, t1).Valid() && config.splits >= 2 ==>
      && result.Ok?
      && SplitUpTo(result.value, Spans(t0, t1), config.splits, EmbargoSize(config, |t0|), config.splits)
  {
    if |t0| != |t1| {
      return Err(ShapeMismatch);
    }
    var valid := AllOrdered(t0, t1);
    if !valid {
      return Err(EndBeforeStart);
    }
    if config.splits < 2 {
      return Err(TooFewSplits);
    }
    var folds := PurgedFolds(Spans(t0, t1), config.splits, EmbargoSize(config, |t0|));
    return Ok(folds);
  }

  method PurgedFolds(spans: Spans, splits: int, embargo: int) returns (folds: seq<Fold>)
    requires spans.Valid() && splits >= 2
    ensures SplitUpTo(folds, spans, splits, embargo, splits)
  {
    var n := |spans.start|;
    folds := [];
    for f := 0 to splits
      invariant SplitUpTo(folds, spans, splits, embargo, f)
    {
      BlockBounds(n, splits, f);
      var lo, hi := BlockStart(n, splits, f), BlockStart(n, splits, f + 1);
      if lo < hi {
        var train := TrainMask(spans, lo, hi, embargo);
        var fold := Fold(train, Range(lo, hi));
        NextFold(folds, fold, spans, splits, embargo, f, lo, hi);
        folds := folds + [fold];
      }
    }
  }

  method AllOrdered(t0: seq<int>, t1: seq<int>) returns (ok: bool)
    requires |t0| == |t1|
    ensures ok <==> Spans(t0, t1).Valid()
  {
    for i := 0 to |t0|
      invariant forall j :: 0 <= j < i ==> t0[j] <= t1[j]
    {
      if t1[i] < t0[i] {
        assert !Spans(t0, t1).Valid();
        return false;
      }
    }
    return true;
  }

  /** The last fold is that of the last non-empty block. */
  lemma LastFold(folds: seq<Fold>, spans: Spans, splits: int, embargo: int, f: int) returns (lo: int, hi: int)
    requires |spans.start| == |spans.end| && splits > 0 && 0 < f <= splits
    requires SplitUpTo(folds, spans, splits, embargo, f)
    requires BlockStart(|spans.start|, splits, f - 1) != BlockStart(|spans.start|, splits, f)
    ensures folds != [] && 0 <= lo < hi <= |spans.start| && Purged(folds[|folds| - 1], spans, lo, hi, embargo)
    ensures SplitUpTo(folds[..|folds| - 1], spans, splits, embargo, f - 1)
  {
    BlockBounds(|spans.start|, splits, f - 1);
    lo, hi := BlockStart(|spans.start|, splits, f - 1), BlockStart(|spans.start|, splits, f);
  }

  /** Each fold of a split is the purged fold of a non-empty block. */
  lemma {:induction false} FoldOfBlock(folds: seq<Fold>, spans: Spans, splits: int, embargo: int, f: int, a: int)
    returns (lo: int, hi: int)
    requires |spans.start| == |spans.end| && splits > 0 && 0 <= f <= splits
    requires SplitUpTo(folds, spans, splits, embargo, f) && 0 <= a < |folds|
    ensures 0 <= lo < hi <= |spans.start| && Purged(folds[a], spans, lo, hi, embargo)
    decreases f
  {
    var init := folds[..|folds| - 1];
    if BlockStart(|spans.start|, splits, f - 1) == BlockStart(|spans.start|, splits, f) {
      lo, hi := FoldOfBlock(folds, spans, splits, embargo, f - 1, a);
    } else {
      lo, hi := LastFold(folds, spans, splits, embargo, f);
      if a < |init| {
        lo, hi := FoldOfBlock(init, spans, splits, embargo, f - 1, a);
        assert init[a] == folds[a];
      }
    }
  }

  /** The position behind the test samples of a fold. */
  function Behind(fold: Fold): int {
    if fold.test == [] then 0 else fold.test[|fold.test| - 1] + 1
  }

  /** Whatever is split, no training span of any fold overlaps a test span of that fold, and its buffer is empty. */
  lemma SplitIsSound(folds: seq<Fold>, spans: Spans, splits: int, embargo: int, f: int, a: int)
    requires |spans.start| == |spans.end| && splits > 0 && 0 <= f <= splits
    requires SplitUpTo(folds, spans, splits, embargo, f) && 0 <= a < |folds|
    ensures folds[a].test != []
    ensures forall i :: i in folds[a].train ==>
      0 <= i < |spans.start| && i !in folds[a].test && !(Behind(folds[a]) <= i < Behind(folds[a]) + embargo)
    ensures forall i, j :: i in folds[a].train && j in folds[a].test ==>
      0 <= i < |spans.start| && 0 <= j < |spans.start| && !spans.Overlap(i, j)
  {
    var lo, hi := FoldOfBlock(folds, spans, splits, embargo, f, a);
    forall i | i in folds[a].train
      ensures 0 <= i < |spans.start| && i !in folds[a].test && !(hi <= i < hi + embargo)
      ensures forall j :: j in folds[a].test ==> 0 <= j < |spans.start| && !spans.Overlap(i, j)
    {
      PurgeIsSound(folds[a], spans, lo, hi, embargo, i);
    }
  }

  /** A split of samples in event order trains every fold on exactly what may be trained on: nothing is lost. */
  lemma SplitIsExactInEventOrder(folds: seq<Fold>, spans: Spans, splits: int, embargo: int, f: int, a: int, i: int)
    requires spans.Valid() && EventOrdered(spans) && splits > 0 && 0 <= f <= splits
    requires SplitUpTo(folds, spans, splits, embargo, f) && 0 <= a < |folds| && 0 <= i < |spans.start|
    ensures forall j :: j in folds[a].test ==> 0 <= j < |spans.start|
    ensures i in folds[a].train <==>
      && i !in folds[a].test && !(Behind(folds[a]) <= i < Behind(folds[a]) + embargo)
      && forall j :: j in folds[a].test ==> !spans.Overlap(i, j)
  {
    var lo, hi := FoldOfBlock(folds, spans, splits, embargo, f, a);
    PurgeIsExactInEventOrder(spans, lo, hi, embargo, i);
    forall j ensures j in folds[a].test <==> lo <= j < hi {
      if lo <= j < hi {
        assert Range(lo, hi)[j - lo] == j;
      }
    }
  }

  /** The test sets of the folds so far are the blocks so far. */
  lemma {:induction false} SplitTestsBlocks(folds: seq<Fold>, spans: Spans, splits: int, embargo: int, f: int)
    requires |spans.start| == |spans.end| && splits > 0 && 0 <= f <= splits
    requires SplitUpTo(folds, spans, splits, embargo, f)
    ensures Tests(folds) == Blocks(|spans.start|, splits, f)
    decreases f
  {
    if f > 0 {
      var n := |spans.start|;
      BlockBounds(n, splits, f - 1);
      var lo, hi := BlockStart(n, splits, f - 1), BlockStart(n, splits, f);
      assert Block(n, splits, f - 1) == Range(lo, hi);
      if lo == hi {
        SplitTestsBlocks(folds, spans, splits, embargo, f - 1);
        assert Range(lo, hi) == [];
      } else {
        SplitTestsBlocks(folds[..|folds| - 1], spans, splits, embargo, f - 1);
      }
    }
  }

  /** Each fold tests its block, and there are as many as splits or, if fewer, samples. */
  lemma {:induction false} FoldsTestTheirBlocks(folds: seq<Fold>, spans: Spans, splits: int, embargo: int, f: int)
    requires |spans.start| == |spans.end| && splits > 0 && 0 <= f <= splits
    requires SplitUpTo(folds, spans, splits, embargo, f)
    ensures |folds| == if f < |spans.start| then f else |spans.start|
    ensures forall a :: 0 <= a < |folds| ==> folds[a].test == Block(|spans.start|, splits, a)
    decreases f
  {
    var n := |spans.start|;
    if f > 0 {
      BlockIsEmptyIff(n, splits, f - 1);
      if f - 1 < n {
        FoldsTestTheirBlocks(folds[..|folds| - 1], spans, splits, embargo, f - 1);
      } else {
        BlockBounds(n, splits, f - 1);
        FoldsTestTheirBlocks(folds, spans, splits, embargo, f - 1);
      }
    }
  }

  /** The folds of a split are of even size, larger ones first, and none of them is empty. */
  lemma SplitIsEven(folds: seq<Fold>, spans: Spans, splits: int, embargo: int, a: int, b: int)
    requires |spans.start| == |spans.end| && splits > 0 && SplitUpTo(folds, spans, splits, embargo, splits)
    requires 0 <= a <= b < |folds|
    ensures |folds| == if splits < |spans.start| then splits else |spans.start|
    ensures 0 < |folds[b].test| <= |folds[a].test| <= |folds[b].test| + 1
  {
    FoldsTestTheirBlocks(folds, spans, splits, embargo, splits);
    BlocksAreAnEvenPartition(|spans.start|, splits);
    BlockIsEmptyIff(|spans.start|, splits, b);
  }

  /** The embargo is the nearest whole number of samples to its part of them, the even one of two. */
  lemma EmbargoIsNearest(config: PurgedKFold, n: nat)
    ensures var exact, size := Times(n as real, config.embargo), EmbargoSize(config, n);
      && exact - 0.5 <= size as real <= exact + 0.5
      && (Abs(size as real - exact) == 0.5 ==> size % 2 == 0)
  {
  }

  /** The test sets of the folds, one after the other, are all samples in order, each once. */
  lemma SplitTestsEverySample(folds: seq<Fold>, spans: Spans, splits: int, embargo: int)
    requires |spans.start| == |spans.end| && splits > 0
    requires SplitUpTo(folds, spans, splits, embargo, splits)
    ensures Tests(folds) == Range(0, |spans.start|)
  {
    SplitTestsBlocks(folds, spans, splits, embargo, splits);
    BlocksAreAnEvenPartition(|spans.start|, splits);
  }
}
