/** Flattening a merge tree into the left-to-right order of its leaves. */
module Dendrogram {

  /** One row of a linkage: the two clusters it merges. Row j creates cluster n + j. */
  datatype Merge = Merge(left: int, right: int)

  /** The merges, oldest first, and the size the last row gives for the final cluster. */
  datatype Linkage = Linkage(merges: seq<Merge>, size: int) {

    /** A merge only joins clusters that exist already. */
    ghost predicate Ordered() {
      && merges != []
      && size == |merges| + 1
      && forall j :: 0 <= j < |merges| ==> 0 <= merges[j].left < size + j && 0 <= merges[j].right < size + j
    }

    /** And every cluster but the last is merged exactly once. */
    ghost predicate Valid() {
      Ordered() && multiset(Children(merges)) == multiset(Span(0, 2 * size - 2))
    }

    /** The cluster is a merged one. */
    predicate Merged(id: int) {
      && 0 <= id && 0 <= id - size < |merges|
      && 0 <= merges[id - size].left < id && 0 <= merges[id - size].right < id
    }

    function Root(): int {
      size + |merges| - 1
    }

    /** The leaves under a cluster, from left to right. */
    ghost function Leaves(id: int): seq<int>
      decreases if id < 0 then 0 else id
    {
      if Merged(id) then Leaves(merges[id - size].left) + Leaves(merges[id - size].right) else [id]
    }

    /** The leaves under a row of clusters. */
    ghost function LeavesOf(ids: seq<int>): seq<int> {
      if ids == [] then [] else LeavesOf(ids[..|ids| - 1]) + Leaves(ids[|ids| - 1])
    }
  }

  /** The n consecutive numbers from a. */
  function Span(a: int, n: nat): (s: seq<int>)
    ensures |s| == n && forall i :: 0 <= i < n ==> s[i] == a + i
  {
    seq(n, i => a + i)
  }

  function Children(merges: seq<Merge>): seq<int> {
    if merges == [] then []
    else
      var m := merges[|merges| - 1];
      Children(merges[..|merges| - 1]) + [m.left, m.right]
  }

  function MaxOf(order: seq<int>): int
    requires order != []
  {
    if |order| == 1 then order[0]
    else
      var m := MaxOf(order[..|order| - 1]);
      if order[|order| - 1] > m then order[|order| - 1] else m
  }

  lemma {:induction false} MaxOfIsGreatest(order: seq<int>)
    requires order != []
    ensures forall i :: 0 <= i < |order| ==> order[i] <= MaxOf(order)
    ensures exists i :: 0 <= i < |order| && order[i] == MaxOf(order)
  {
    if |order| > 1 {
      var init := order[..|order| - 1];
      MaxOfIsGreatest(init);
      var i :| 0 <= i < |init| && init[i] == MaxOf(init);
      assert order[i] == MaxOf(init);
      assert order[|order| - 1] == MaxOf(order) || order[i] == MaxOf(order);
    } else {
      assert order[0] == MaxOf(order);
    }
  }

  lemma {:induction false} LeavesOfAppend(l: Linkage, a: seq<int>, b: seq<int>)
    ensures l.LeavesOf(a + b) == l.LeavesOf(a) + l.LeavesOf(b)
  {
    if b == [] {
      assert a + b == a;
    } else {
      assert (a + b)[..|a + b| - 1] == a + b[..|b| - 1];
      LeavesOfAppend(l, a, b[..|b| - 1]);
    }
  }

  lemma LeavesOfPair(l: Linkage, x: int, y: int)
    ensures l.LeavesOf([x]) == l.Leaves(x)
    ensures l.LeavesOf([x, y]) == l.Leaves(x) + l.Leaves(y)
  {
    assert [x][..0] == [];
    assert [x, y][..1] == [x];
  }

  // ------------------------------------- the leaves are a permutation of the items

  /** Leaf counts of a row of clusters do not depend on its order. */
  lemma {:induction false} LeavesOfPermutation(l: Linkage, a: seq<int>, b: seq<int>)
    requires multiset(a) == multiset(b)
    ensures multiset(l.LeavesOf(a)) == multiset(l.LeavesOf(b))
    decreases |a|
  {
    assert |a| == |multiset(a)| == |multiset(b)| == |b|;
    if a != [] {
      var x, init := a[|a| - 1], a[..|a| - 1];
      var before, after := Around(a, b);
      LeavesOfPermutation(l, init, before + after);
      LeavesOfAppend(l, before, after);
      LeavesOfAppend(l, before, [x] + after);
      LeavesOfAppend(l, [x], after);
      LeavesOfPair(l, x, x);
    }
  }

  /** Taking out the element at j. */
  lemma TakeOut(s: seq<int>, j: nat)
    requires j < |s|
    ensures s == s[..j] + ([s[j]] + s[j + 1..])
    ensures multiset(s[..j] + s[j + 1..]) == multiset(s) - multiset{s[j]}
  {
    var before, after := s[..j], s[j + 1..];
    assert s == before + ([s[j]] + after);
    assert multiset(s) == multiset(before) + (multiset{s[j]} + multiset(after));
  }

  /** The parts of b around an occurrence of the last element of a. */
  lemma Around(a: seq<int>, b: seq<int>) returns (before: seq<int>, after: seq<int>)
    requires multiset(a) == multiset(b) && a != []
    ensures b == before + ([a[|a| - 1]] + after)
    ensures multiset(a[..|a| - 1]) == multiset(before + after)
  {
    var n := |a| - 1;
    TakeOut(a, n);
    assert a[..n] + a[n + 1..] == a[..n];
    assert a[n] in multiset(b);
    var j :| 0 <= j < |b| && b[j] == a[n];
    TakeOut(b, j);
    before, after := b[..j], b[j + 1..];
  }

  /** What one expansion makes of a merged cluster keeps its leaves. */
  lemma ExpansionKeepsLeaves(l: Linkage, j: nat)
    requires l.Ordered() && j < |l.merges|
    ensures l.LeavesOf([l.merges[j].left, l.merges[j].right]) == l.Leaves(l.size + j)
  {
    LeavesOfPair(l, l.merges[j].left, l.merges[j].right);
  }

  /** The leaves under the first n merged clusters are the leaves under their children. */
  lemma {:induction false} MergedAndChildren(l: Linkage, n: nat)
    requires l.Ordered() && n <= |l.merges|
    ensures l.LeavesOf(Span(l.size, n)) == l.LeavesOf(Children(l.merges[..n]))
  {
    if n > 0 {
      var m := l.merges[n - 1];
      assert l.merges[..n][..n - 1] == l.merges[..n - 1];
      MergedAndChildren(l, n - 1);
      ExpansionKeepsLeaves(l, n - 1);
      LeavesOfAppend(l, Children(l.merges[..n - 1]), [m.left, m.right]);
      assert Span(l.size, n)[..n - 1] == Span(l.size, n - 1);
    }
  }

  lemma {:induction false} ItemsAreTheirOwnLeaves(l: Linkage, items: seq<int>)
    requires forall i :: 0 <= i < |items| ==> items[i] < l.size
    ensures l.LeavesOf(items) == items
  {
    if items != [] {
      ItemsAreTheirOwnLeaves(l, items[..|items| - 1]);
      assert items == items[..|items| - 1] + [items[|items| - 1]];
    }
  }

  /** Counted over all merged clusters, leaves are those under all clusters that are children. */
  lemma MergedLeavesAreChildLeaves(l: Linkage)
    requires l.Valid()
    ensures multiset(l.LeavesOf(Span(l.size, l.size - 1))) == multiset(l.LeavesOf(Span(0, 2 * l.size - 2)))
  {
    assert l.merges[..|l.merges|] == l.merges;
    MergedAndChildren(l, |l.merges|);
    LeavesOfPermutation(l, Children(l.merges), Span(0, 2 * l.size - 2));
  }

  lemma SpanParts(n: int)
    requires n >= 2
    ensures Span(0, 2 * n - 2) == Span(0, n) + Span(n, n - 2)
    ensures Span(n, n - 1) == Span(n, n - 2) + [2 * n - 2]
  {
  }

  /** The leaves under all merged clusters are those under all but the last, then those under the last. */
  lemma LeavesOfMerged(l: Linkage, inner: seq<int>)
    requires l.Valid() && inner == Span(l.size, l.size - 2)
    ensures l.LeavesOf(Span(l.size, l.size - 1)) == l.LeavesOf(inner) + l.Leaves(l.Root())
  {
    SpanParts(l.size);
    LeavesOfAppend(l, inner, [l.Root()]);
    LeavesOfPair(l, l.Root(), l.Root());
  }

  /** The leaves under all children are the items, then those under the merged clusters but the last. */
  lemma LeavesOfChildren(l: Linkage, inner: seq<int>)
    requires l.Valid() && inner == Span(l.size, l.size - 2)
    ensures l.LeavesOf(Span(0, 2 * l.size - 2)) == Span(0, l.size) + l.LeavesOf(inner)
  {
    SpanParts(l.size);
    LeavesOfAppend(l, Span(0, l.size), inner);
    ItemsAreTheirOwnLeaves(l, Span(0, l.size));
  }

  /**
   * Telescoping: every cluster but the last is a child exactly once, so the leaves under the last one
   * are the items, each once.
   */
  lemma RootLeavesAreAPermutation(l: Linkage)
    requires l.Valid()
    ensures multiset(l.Leaves(l.Root())) == multiset(Span(0, l.size))
  {
    var inner := Span(l.size, l.size - 2);
    LeavesOfMerged(l, inner);
    LeavesOfChildren(l, inner);
    MergedLeavesAreChildLeaves(l);
    Cancel(l.LeavesOf(inner), l.Leaves(l.Root()), Span(0, l.size));
  }

  lemma Cancel(a: seq<int>, b: seq<int>, c: seq<int>)
    requires multiset(a + b) == multiset(c + a)
    ensures multiset(b) == multiset(c)
  {
    assert multiset(b) == multiset(a + b) - multiset(a);
    assert multiset(c) == multiset(c + a) - multiset(a);
  }

  lemma SpanCounts(n: nat)
    ensures forall v :: multiset(Span(0, n))[v] == if 0 <= v < n then 1 else 0
  {
    if n > 0 {
      SpanCounts(n - 1);
      assert Span(0, n) == Span(0, n - 1) + [n - 1];
    }
  }

  lemma TwiceCountsTwo(order: seq<int>, i: nat, j: nat)
    requires i < j < |order| && order[i] == order[j]
    ensures multiset(order)[order[j]] >= 2
  {
    assert order == order[..i] + [order[i]] + order[i + 1..j] + [order[j]] + order[j + 1..];
  }

  /** An order of the numbers below n lists each of them, once. */
  lemma OrderListsOnce(order: seq<int>, n: nat)
    requires multiset(order) == multiset(Span(0, n))
    ensures forall v :: v in order <==> 0 <= v < n
    ensures forall i, j :: 0 <= i < j < |order| ==> order[i] != order[j]
  {
    SpanCounts(n);
    forall v ensures v in order <==> 0 <= v < n {
      assert v in order <==> v in multiset(order);
    }
    forall i, j | 0 <= i < j < |order| ensures order[i] != order[j] {
      if order[i] == order[j] {
        TwiceCountsTwo(order, i, j);
        assert false;
      }
    }
  }

  // ------------------------------------------------- where each cluster stands

  /** The cluster id was merged from x and another. */
  predicate MergedFrom(l: Linkage, id: int, x: int) {
    0 <= id - l.size < |l.merges| && (l.merges[id - l.size].left == x || l.merges[id - l.size].right == x)
  }

  /** Each cluster of the path was merged into the next. */
  ghost predicate Climbs(l: Linkage, path: seq<int>) {
    forall i :: 0 <= i < |path| - 1 ==> MergedFrom(l, path[i + 1], path[i])
  }

  /** x went into the cluster id, by however many merges. */
  ghost predicate Under(l: Linkage, x: int, id: int) {
    exists path: seq<int> :: Climbs(l, path) && path != [] && path[0] == x && path[|path| - 1] == id
  }

  lemma ClimbFurther(l: Linkage, x: int, y: int, id: int)
    requires Under(l, x, y) && MergedFrom(l, id, y)
    ensures Under(l, x, id)
  {
    var path: seq<int> :| Climbs(l, path) && path != [] && path[0] == x && path[|path| - 1] == y;
    var longer := path + [id];
    assert Climbs(l, longer) && longer[0] == x && longer[|longer| - 1] == id;
  }

  /** The items under a cluster are its leaves. */
  lemma {:induction false} LeavesAreUnder(l: Linkage, x: int, id: int)
    requires l.Ordered() && 0 <= x < l.size && 0 <= id <= l.Root()
    ensures x in l.Leaves(id) <==> Under(l, x, id)
    decreases id
  {
    if id < l.size {
      ItemsAreUnderThemselves(l, x, id);
    } else {
      var m := l.merges[id - l.size];
      MergedLeaves(l, id);
      LeavesAreUnder(l, x, m.left);
      LeavesAreUnder(l, x, m.right);
      if Under(l, x, m.left) {
        ClimbFurther(l, x, m.left, id);
      }
      if Under(l, x, m.right) {
        ClimbFurther(l, x, m.right, id);
      }
      if Under(l, x, id) {
        LastMerge(l, x, id);
      }
    }
  }

  lemma ItemsAreUnderThemselves(l: Linkage, x: int, id: int)
    requires 0 <= id < l.size
    ensures Under(l, x, id) <==> x == id
  {
    assert Climbs(l, [id]);
    assert x == id ==> [id][0] == x && [id][|[id]| - 1] == id;
    if path: seq<int> :| Climbs(l, path) && path != [] && path[0] == x && path[|path| - 1] == id {
      assert |path| > 1 ==> MergedFrom(l, path[|path| - 2 + 1], path[|path| - 2]);
    }
  }

  lemma LastMerge(l: Linkage, x: int, id: int)
    requires x < l.size <= id <= l.Root() && Under(l, x, id)
    ensures var m := l.merges[id - l.size]; Under(l, x, m.left) || Under(l, x, m.right)
  {
    var path: seq<int> :| Climbs(l, path) && path != [] && path[0] == x && path[|path| - 1] == id;
    var shorter := path[..|path| - 1];
    assert MergedFrom(l, path[|path| - 2 + 1], path[|path| - 2]);
    assert Climbs(l, shorter) && shorter[0] == x && shorter[|shorter| - 1] == path[|path| - 2];
  }

  lemma {:induction false} ChildrenAre(merges: seq<Merge>, x: int) returns (j: nat)
    requires x in Children(merges)
    ensures j < |merges| && (merges[j].left == x || merges[j].right == x)
  {
    var n := |merges| - 1;
    if x in Children(merges[..n]) {
      j := ChildrenAre(merges[..n], x);
    } else {
      j := n;
    }
  }

  /** Every cluster but the last was merged into a later one. */
  lemma ParentOf(l: Linkage, id: int) returns (q: int)
    requires l.Valid() && 0 <= id < l.Root()
    ensures id < q <= l.Root() && l.size <= q && MergedFrom(l, q, id)
  {
    assert Span(0, 2 * l.size - 2)[id] == id;
    assert id in multiset(Span(0, 2 * l.size - 2)) && id in multiset(Children(l.merges));
    var j := ChildrenAre(l.merges, id);
    q := l.size + j;
  }

  /** The leaves of a cluster stand together among those of the root, its left child's before its right child's. */
  lemma {:induction false} StandsAt(l: Linkage, id: int) returns (lo: nat)
    requires l.Valid() && 0 <= id <= l.Root()
    ensures lo + |l.Leaves(id)| <= |l.Leaves(l.Root())|
    ensures l.Leaves(l.Root())[lo..lo + |l.Leaves(id)|] == l.Leaves(id)
    decreases l.Root() - id
  {
    if id == l.Root() {
      lo := 0;
    } else {
      var q := ParentOf(l, id);
      var at := StandsAt(l, q);
      lo := WithinParent(l, l.Leaves(l.Root()), q, at, id);
    }
  }

  lemma WithinParent(l: Linkage, order: seq<int>, q: int, at: nat, id: int) returns (lo: nat)
    requires l.Ordered() && l.size <= q <= l.Root() && MergedFrom(l, q, id)
    requires at + |l.Leaves(q)| <= |order| && order[at..at + |l.Leaves(q)|] == l.Leaves(q)
    ensures lo + |l.Leaves(id)| <= |order| && order[lo..lo + |l.Leaves(id)|] == l.Leaves(id)
  {
    var left, right := l.Leaves(l.merges[q - l.size].left), l.Leaves(l.merges[q - l.size].right);
    MergedLeaves(l, q);
    PartOfSlice(order, left, right, at);
    lo := if l.merges[q - l.size].left == id then at else at + |left|;
  }

  lemma PartOfSlice(s: seq<int>, a: seq<int>, b: seq<int>, at: nat)
    requires at + |a + b| <= |s| && s[at..at + |a + b|] == a + b
    ensures s[at..at + |a|] == a && s[at + |a|..at + |a| + |b|] == b
  {
    var slice := s[at..at + |a + b|];
    assert slice[..|a|] == a && slice[|a|..] == b;
    assert s[at..at + |a|] == slice[..|a|] && s[at + |a|..at + |a| + |b|] == slice[|a|..];
  }

  /** In the order, exactly the positions from lo to mid hold what is under the left child, to hi under the right. */
  ghost predicate StandsApart(l: Linkage, order: seq<int>, id: int, lo: int, mid: int, hi: int)
    requires 0 <= id - l.size < |l.merges|
  {
    && 0 <= lo < mid < hi <= |order|
    && (forall i :: 0 <= i < |order| ==> (lo <= i < mid <==> Under(l, order[i], l.merges[id - l.size].left)))
    && (forall i :: 0 <= i < |order| ==> (mid <= i < hi <==> Under(l, order[i], l.merges[id - l.size].right)))
  }

  lemma {:induction false} LeavesAreItems(l: Linkage, id: int)
    requires l.Ordered() && 0 <= id <= l.Root()
    ensures l.Leaves(id) != [] && forall x :: x in l.Leaves(id) ==> 0 <= x < l.size
    decreases id
  {
    if id >= l.size {
      MergedLeaves(l, id);
      LeavesAreItems(l, l.merges[id - l.size].left);
      LeavesAreItems(l, l.merges[id - l.size].right);
    }
  }

  /** Where a run of distinct items stands in an order of them, and nowhere else. */
  lemma RunIsWhere(order: seq<int>, run: seq<int>, lo: nat)
    requires lo + |run| <= |order| && order[lo..lo + |run|] == run
    requires forall i, j :: 0 <= i < j < |order| ==> order[i] != order[j]
    ensures forall i :: 0 <= i < |order| ==> (lo <= i < lo + |run| <==> order[i] in run)
  {
    forall i | 0 <= i < |order| ensures lo <= i < lo + |run| <==> order[i] in run {
      if lo <= i < lo + |run| {
        assert run[i - lo] == order[i];
      }
      if j :| 0 <= j < |run| && run[j] == order[i] {
        assert order[lo + j] == run[j];
      }
    }
  }

  /** Similar items stand together: each cluster's two children occupy adjacent stretches of the order, left first. */
  lemma ClustersStandTogether(l: Linkage, id: int) returns (lo: int, mid: int, hi: int)
    requires l.Valid() && l.size <= id <= l.Root()
    ensures StandsApart(l, l.Leaves(l.Root()), id, lo, mid, hi)
  {
    var order, m := l.Leaves(l.Root()), l.merges[id - l.size];
    lo, mid, hi := ChildrenStandAt(l, order, id);
    RootLeavesAreAPermutation(l);
    OrderListsOnce(order, l.size);
    ClusterIsWhere(l, order, m.left, order[lo..mid], lo);
    ClusterIsWhere(l, order, m.right, order[mid..hi], mid);
  }

  lemma ChildrenStandAt(l: Linkage, order: seq<int>, id: int) returns (lo: int, mid: int, hi: int)
    requires l.Valid() && l.size <= id <= l.Root() && order == l.Leaves(l.Root())
    ensures 0 <= lo <= mid <= hi <= |order|
    ensures order[lo..mid] == l.Leaves(l.merges[id - l.size].left)
    ensures order[mid..hi] == l.Leaves(l.merges[id - l.size].right)
  {
    lo := StandsAt(l, id);
    MergedLeaves(l, id);
    mid, hi := SplitSlice(
      order, l.Leaves(id), l.Leaves(l.merges[id - l.size].left), l.Leaves(l.merges[id - l.size].right), lo);
  }

  lemma SplitSlice(s: seq<int>, whole: seq<int>, a: seq<int>, b: seq<int>, at: nat) returns (mid: int, hi: int)
    requires at + |whole| <= |s| && s[at..at + |whole|] == whole && whole == a + b
    ensures at <= mid <= hi <= |s| && s[at..mid] == a && s[mid..hi] == b
  {
    PartOfSlice(s, a, b, at);
    mid, hi := at + |a|, at + |a| + |b|;
  }

  /** Where the leaves of a cluster stand is what is under it, and nothing else is. */
  lemma ClusterIsWhere(l: Linkage, order: seq<int>, id: int, run: seq<int>, lo: nat)
    requires l.Ordered() && 0 <= id <= l.Root() && run == l.Leaves(id)
    requires forall v :: v in order <==> 0 <= v < l.size
    requires forall i, j :: 0 <= i < j < |order| ==> order[i] != order[j]
    requires lo + |run| <= |order| && order[lo..lo + |run|] == run
    ensures run != []
    ensures forall i :: 0 <= i < |order| ==> (lo <= i < lo + |run| <==> Under(l, order[i], id))
  {
    LeavesAreItems(l, id);
    RunIsWhere(order, run, lo);
    forall i | 0 <= i < |order| ensures order[i] in run <==> Under(l, order[i], id) {
      assert order[i] in order;
      LeavesAreUnder(l, order[i], id);
    }
  }

  ghost predicate StandsTogether(l: Linkage, order: seq<int>, id: int)
    requires 0 <= id - l.size < |l.merges|
  {
    exists lo, mid, hi :: StandsApart(l, order, id, lo, mid, hi)
  }

  lemma AllStandTogether(l: Linkage)
    requires l.Valid()
    ensures forall id :: l.size <= id <= l.Root() ==> StandsTogether(l, l.Leaves(l.Root()), id)
  {
    forall id | l.size <= id <= l.Root() ensures StandsTogether(l, l.Leaves(l.Root()), id) {
      var lo, mid, hi := ClustersStandTogether(l, id);
    }
  }

  // ------------------------------------------------------------- the algorithm

  /** Every entry is a cluster below m. */
  ghost predicate Below(order: seq<int>, m: int) {
    forall i :: 0 <= i < |order| ==> 0 <= order[i] < m
  }

  lemma BelowAppend(a: seq<int>, b: seq<int>, m: int)
    requires Below(a, m) && Below(b, m)
    ensures Below(a + b, m)
  {
  }

  /** Replacing a cluster at the end of what is done by an expansion with the same leaves. */
  lemma ExpandOne(l: Linkage, done: seq<int>, expanded: seq<int>, id: int, children: seq<int>)
    requires l.LeavesOf(expanded) == l.LeavesOf(done) && l.LeavesOf(children) == l.Leaves(id)
    ensures l.LeavesOf(expanded + children) == l.LeavesOf(done + [id])
  {
    LeavesOfAppend(l, expanded, children);
    LeavesOfAppend(l, done, [id]);
    LeavesOfPair(l, id, id);
  }

  /** What one expansion makes of a cluster. */
  function Expansion(l: Linkage, id: int): seq<int> {
    if 0 <= id - l.size < |l.merges| then [l.merges[id - l.size].left, l.merges[id - l.size].right] else [id]
  }

  /** The first n entries have been expanded: same leaves, and nothing at or above the maximum any more. */
  ghost predicate Expanded(l: Linkage, order: seq<int>, n: nat, expanded: seq<int>)
    requires n <= |order|
  {
    && |expanded| >= n
    && (order != [] ==> Below(expanded, MaxOf(order)))
    && l.LeavesOf(expanded) == l.LeavesOf(order[..n])
  }

  lemma ExpansionOfMerged(l: Linkage, id: int, x: int, y: int)
    requires Expansion(l, id) == [x, y] && l.Leaves(id) == l.Leaves(x) + l.Leaves(y)
    ensures l.LeavesOf(Expansion(l, id)) == l.Leaves(id)
  {
    LeavesOfPair(l, x, y);
  }

  lemma MergedLeaves(l: Linkage, id: int)
    requires l.Ordered() && l.size <= id <= l.Root()
    ensures var m := l.merges[id - l.size];
      Expansion(l, id) == [m.left, m.right] && l.Leaves(id) == l.Leaves(m.left) + l.Leaves(m.right)
  {
    assert l.Merged(id);
  }

  lemma ExpansionOfItem(l: Linkage, id: int)
    requires id < l.size
    ensures l.LeavesOf(Expansion(l, id)) == l.Leaves(id)
  {
    assert [id][..0] == [];
  }

  lemma ExpansionLeaves(l: Linkage, id: int)
    requires l.Ordered() && id <= l.Root()
    ensures l.LeavesOf(Expansion(l, id)) == l.Leaves(id)
  {
    if l.size <= id {
      MergedLeaves(l, id);
      ExpansionOfMerged(l, id, l.merges[id - l.size].left, l.merges[id - l.size].right);
    } else {
      ExpansionOfItem(l, id);
    }
  }

  lemma ExpansionBelow(l: Linkage, id: int, m: int)
    requires l.Ordered() && 0 <= id <= m <= l.Root() && l.size <= m
    ensures Below(Expansion(l, id), m)
  {
  }

  lemma PrefixGrows(order: seq<int>, n: nat)
    requires n < |order|
    ensures order[..n + 1] == order[..n] + [order[n]]
  {
  }

  lemma ExpandNext(l: Linkage, order: seq<int>, n: nat, expanded: seq<int>)
    requires l.Ordered() && n < |order| && Below(order, 2 * l.size - 1) && MaxOf(order) >= l.size
    requires Expanded(l, order, n, expanded)
    ensures Expanded(l, order, n + 1, expanded + Expansion(l, order[n]))
  {
    MaxOfIsGreatest(order);
    ExpansionLeaves(l, order[n]);
    ExpansionBelow(l, order[n], MaxOf(order));
    ExpandOne(l, order[..n], expanded, order[n], Expansion(l, order[n]));
    PrefixGrows(order, n);
    BelowAppend(expanded, Expansion(l, order[n]), MaxOf(order));
  }

  lemma ExpandedAll(l: Linkage, order: seq<int>, expanded: seq<int>)
    requires order != [] && Below(order, 2 * l.size - 1) && Expanded(l, order, |order|, expanded)
    ensures expanded != [] && MaxOf(expanded) < MaxOf(order) && Below(expanded, 2 * l.size - 1)
    ensures l.LeavesOf(expanded) == l.LeavesOf(order)
  {
    assert order[..|order|] == order;
    MaxOfIsGreatest(order);
    MaxOfIsGreatest(expanded);
  }

  /** One pass: every merged cluster in the order is replaced, in place, by its two children. */
  method ExpandPass(l: Linkage, order: seq<int>) returns (expanded: seq<int>)
    requires l.Ordered() && order != [] && Below(order, 2 * l.size - 1)
    requires MaxOf(order) >= l.size
    ensures expanded != [] && MaxOf(expanded) < MaxOf(order) && Below(expanded, 2 * l.size - 1)
    ensures l.LeavesOf(expanded) == l.LeavesOf(order)
  {
    expanded := [];
    for n := 0 to |order|
      invariant Expanded(l, order, n, expanded)
    {
      ExpandNext(l, order, n, expanded);
      if order[n] >= l.size {
        var m := l.merges[order[n] - l.size];
        expanded := expanded + [m.left, m.right];
      } else {
        expanded := expanded + [order[n]];
      }
    }
    ExpandedAll(l, order, expanded);
  }

  /** Expands from the last merge until only items are left: the left-to-right leaves, each item once. */
  method QuasiDiagonal(l: Linkage) returns (order: seq<int>)
    requires l.Valid()
    ensures order == l.Leaves(l.Root())
    ensures multiset(order) == multiset(Span(0, l.size))
    ensures forall id :: l.size <= id <= l.Root() ==> StandsTogether(l, order, id)
  {
    var last := l.merges[|l.merges| - 1];
    order := [last.left, last.right];
    ExpansionKeepsLeaves(l, |l.merges| - 1);
    while MaxOf(order) >= l.size
      invariant order != [] && Below(order, 2 * l.size - 1)
      invariant l.LeavesOf(order) == l.Leaves(l.Root())
      decreases MaxOf(order)
    {
      order := ExpandPass(l, order);
    }
    MaxOfIsGreatest(order);
    ItemsAreTheirOwnLeaves(l, order);
    RootLeavesAreAPermutation(l);
    AllStandTogether(l);
  }
}
