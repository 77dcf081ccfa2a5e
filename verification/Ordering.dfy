/** Lexicographic order on tuples of texts and numbers, and stable sorting by it. */
module Ordering {

  /** A component of a sort key: a number, or a text as its code points. */
  type Component = seq<int>
  type SortKey = seq<Component>

  function Number(n: int): Component {
    [n]
  }

  function Text(s: string): Component {
    seq(|s|, i requires 0 <= i < |s| => s[i] as int)
  }

  predicate ComponentLe(a: Component, b: Component) {
    a == [] || (b != [] && (a[0] < b[0] || (a[0] == b[0] && ComponentLe(a[1..], b[1..]))))
  }

  predicate Le(a: SortKey, b: SortKey) {
    a == [] || (b != [] && ((a[0] != b[0] && ComponentLe(a[0], b[0])) || (a[0] == b[0] && Le(a[1..], b[1..]))))
  }

  lemma NumberOrder(a: int, b: int)
    ensures ComponentLe(Number(a), Number(b)) <==> a <= b
  {
  }

  /** Keys of a single number compare as the numbers do. */
  lemma NumberKeyOrder(a: int, b: int)
    ensures Le([Number(a)], [Number(b)]) <==> a <= b
  {
    NumberOrder(a, b);
    assert [Number(a)][0] == Number(a) && [Number(b)][0] == Number(b);
  }

  /** Strings as a dictionary has them: at the first difference the smaller character comes first, or a prefix does. */
  ghost predicate TextLe(a: string, b: string) {
    a <= b || exists i :: SmallerAt(a, b, i)
  }

  ghost predicate SmallerAt(a: string, b: string, i: int) {
    0 <= i < |a| && i < |b| && a[..i] == b[..i] && a[i] < b[i]
  }

  lemma {:induction false} TextOrder(a: string, b: string)
    ensures ComponentLe(Text(a), Text(b)) <==> TextLe(a, b)
    ensures Text(a) == Text(b) <==> a == b
  {
    if a == [] {
    } else if b == [] || a[0] != b[0] {
      assert Text(a)[0] == a[0] as int;
      if b != [] {
        assert Text(b)[0] == b[0] as int;
        assert a[0] < b[0] ==> SmallerAt(a, b, 0);
        assert forall i :: SmallerAt(a, b, i) && i > 0 ==> a[..i][0] == b[..i][0];
      }
    } else {
      assert Text(a) == [a[0] as int] + Text(a[1..]) && Text(b) == [b[0] as int] + Text(b[1..]);
      TextOrder(a[1..], b[1..]);
      TextLeOfRest(a, b);
      assert a == [a[0]] + a[1..] && b == [b[0]] + b[1..];
    }
  }

  lemma TextLeOfRest(a: string, b: string)
    requires a != [] && b != [] && a[0] == b[0]
    ensures TextLe(a, b) <==> TextLe(a[1..], b[1..])
  {
    assert a == [a[0]] + a[1..] && b == [b[0]] + b[1..];
    if i :| SmallerAt(a, b, i) {
      assert a[..i][1..] == a[1..][..i - 1] && b[..i][1..] == b[1..][..i - 1];
      assert SmallerAt(a[1..], b[1..], i - 1);
    }
    if i :| SmallerAt(a[1..], b[1..], i) {
      assert a[..i + 1] == [a[0]] + a[1..][..i] && b[..i + 1] == [b[0]] + b[1..][..i];
      assert SmallerAt(a, b, i + 1);
    }
  }

  /** A key is decided by its first component, or, if that ties, by the rest. */
  lemma FirstDecides(x: Component, xs: SortKey, y: Component, ys: SortKey)
    ensures Le([x] + xs, [y] + ys) <==> if x == y then Le(xs, ys) else ComponentLe(x, y)
  {
    assert ([x] + xs)[1..] == xs && ([y] + ys)[1..] == ys;
  }

  lemma {:induction false} ComponentTotal(a: Component, b: Component)
    ensures ComponentLe(a, b) || ComponentLe(b, a)
    ensures ComponentLe(a, b) && ComponentLe(b, a) ==> a == b
  {
    if a != [] && b != [] && a[0] == b[0] {
      ComponentTotal(a[1..], b[1..]);
      assert a == [a[0]] + a[1..] && b == [b[0]] + b[1..];
    }
  }

  lemma {:induction false} ComponentTransitive(a: Component, b: Component, c: Component)
    requires ComponentLe(a, b) && ComponentLe(b, c)
    ensures ComponentLe(a, c)
  {
    if a != [] && a[0] == b[0] == c[0] {
      ComponentTransitive(a[1..], b[1..], c[1..]);
    }
  }

  lemma {:induction false} Total(a: SortKey, b: SortKey)
    ensures Le(a, b) || Le(b, a)
    ensures Le(a, b) && Le(b, a) ==> a == b
  {
    if a != [] && b != [] {
      ComponentTotal(a[0], b[0]);
      if a[0] == b[0] {
        Total(a[1..], b[1..]);
        assert a == [a[0]] + a[1..] && b == [b[0]] + b[1..];
      }
    }
  }

  lemma {:induction false} Transitive(a: SortKey, b: SortKey, c: SortKey)
    requires Le(a, b) && Le(b, c)
    ensures Le(a, c)
  {
    if a != [] {
      if a[0] == b[0] == c[0] {
        Transitive(a[1..], b[1..], c[1..]);
      } else if a[0] != b[0] && b[0] != c[0] {
        ComponentTransitive(a[0], b[0], c[0]);
        ComponentTotal(a[0], b[0]);
      }
    }
  }

  // ------------------------------------------------------------ stable sorting

  /** x placed after everything that does not come strictly after it. */
  function Insert<T>(sorted: seq<T>, x: T, key: T -> SortKey): seq<T> {
    if sorted == [] || Le(key(sorted[|sorted| - 1]), key(x)) then sorted + [x]
    else Insert(sorted[..|sorted| - 1], x, key) + [sorted[|sorted| - 1]]
  }

  /** The library sort: ascending by key, ties in their original order. */
  function Sort<T>(s: seq<T>, key: T -> SortKey): seq<T> {
    if s == [] then [] else Insert(Sort(s[..|s| - 1], key), s[|s| - 1], key)
  }

  ghost predicate Sorted<T>(s: seq<T>, key: T -> SortKey) {
    forall i, j :: 0 <= i < j < |s| ==> Le(key(s[i]), key(s[j]))
  }

  function Filter<T>(s: seq<T>, p: T -> bool): seq<T> {
    if s == [] then []
    else Filter(s[..|s| - 1], p) + if p(s[|s| - 1]) then [s[|s| - 1]] else []
  }

  lemma {:induction false} InsertKeepsElements<T>(s: seq<T>, x: T, key: T -> SortKey)
    ensures multiset(Insert(s, x, key)) == multiset(s) + multiset{x}
  {
    if s != [] && !Le(key(s[|s| - 1]), key(x)) {
      InsertKeepsElements(s[..|s| - 1], x, key);
      assert s == s[..|s| - 1] + [s[|s| - 1]];
    }
  }

  lemma {:induction false} SortKeepsElements<T>(s: seq<T>, key: T -> SortKey)
    ensures multiset(Sort(s, key)) == multiset(s)
    ensures |Sort(s, key)| == |s|
    ensures forall x :: x in Sort(s, key) <==> x in s
  {
    if s != [] {
      SortKeepsElements(s[..|s| - 1], key);
      InsertKeepsElements(Sort(s[..|s| - 1], key), s[|s| - 1], key);
      assert s == s[..|s| - 1] + [s[|s| - 1]];
    }
    assert |Sort(s, key)| == |multiset(Sort(s, key))|;
    assert |s| == |multiset(s)|;
    forall x ensures x in Sort(s, key) <==> x in s {
      assert x in Sort(s, key) <==> x in multiset(Sort(s, key));
    }
  }

  lemma {:induction false} InsertKeepsSorted<T>(s: seq<T>, x: T, key: T -> SortKey)
    requires Sorted(s, key)
    ensures Sorted(Insert(s, x, key), key)
  {
    if s == [] {
    } else if Le(key(s[|s| - 1]), key(x)) {
      forall i | 0 <= i < |s| ensures Le(key(s[i]), key(x)) {
        if i < |s| - 1 {
          Transitive(key(s[i]), key(s[|s| - 1]), key(x));
        }
      }
    } else {
      var last := s[|s| - 1];
      var rest := Insert(s[..|s| - 1], x, key);
      InsertKeepsSorted(s[..|s| - 1], x, key);
      InsertKeepsElements(s[..|s| - 1], x, key);
      Total(key(last), key(x));
      forall i | 0 <= i < |rest| ensures Le(key(rest[i]), key(last)) {
        assert rest[i] in multiset(rest);
        assert rest[i] == x || rest[i] in s[..|s| - 1];
      }
    }
  }

  lemma {:induction false} SortSorts<T>(s: seq<T>, key: T -> SortKey)
    ensures Sorted(Sort(s, key), key)
  {
    if s != [] {
      SortSorts(s[..|s| - 1], key);
      InsertKeepsSorted(Sort(s[..|s| - 1], key), s[|s| - 1], key);
    }
  }

  lemma {:induction false} FilterElements<T>(s: seq<T>, p: T -> bool)
    ensures forall x :: x in Filter(s, p) <==> x in s && p(x)
  {
    if s != [] {
      FilterElements(s[..|s| - 1], p);
      assert s == s[..|s| - 1] + [s[|s| - 1]];
    }
  }

  /** No element of the group p comes strictly after x. */
  ghost predicate UpTo<T>(s: seq<T>, x: T, key: T -> SortKey, p: T -> bool) {
    forall j :: 0 <= j < |s| && p(s[j]) ==> Le(key(s[j]), key(x))
  }

  lemma FilterOfAppend<T>(s: seq<T>, x: T, p: T -> bool)
    ensures Filter(s + [x], p) == Filter(s, p) + if p(x) then [x] else []
  {
    assert (s + [x])[..|s|] == s;
  }

  lemma FilterOfLast<T>(s: seq<T>, p: T -> bool)
    requires s != []
    ensures Filter(s, p) == Filter(s[..|s| - 1], p) + if p(s[|s| - 1]) then [s[|s| - 1]] else []
  {
  }

  lemma {:induction false} FilterOfConcat<T>(a: seq<T>, b: seq<T>, p: T -> bool)
    ensures Filter(a + b, p) == Filter(a, p) + Filter(b, p)
  {
    if b == [] {
      assert a + b == a;
    } else {
      var init, last := b[..|b| - 1], b[|b| - 1];
      FilterOfConcat(a, init, p);
      FilterOfAppend(a + init, last, p);
      FilterOfLast(b, p);
      assert a + b == a + init + [last];
    }
  }

  lemma FilterOfTwo<T>(a: T, b: T, p: T -> bool)
    ensures Filter([a, b], p) == (if p(a) then [a] else []) + if p(b) then [b] else []
  {
    FilterOfAppend([], a, p);
    FilterOfAppend([a], b, p);
    assert [] + [a] == [a] && [a] + [b] == [a, b];
  }

  lemma FilterStep<T>(s: seq<T>, n: nat, p: T -> bool)
    requires n < |s|
    ensures Filter(s[..n + 1], p) == Filter(s[..n], p) + if p(s[n]) then [s[n]] else []
  {
    assert s[..n + 1] == s[..n] + [s[n]];
    FilterOfAppend(s[..n], s[n], p);
  }

  lemma {:induction false} FilterOfAll<T>(s: seq<T>, p: T -> bool)
    requires forall i :: 0 <= i < |s| ==> p(s[i])
    ensures Filter(s, p) == s
  {
    if s != [] {
      var init, last := s[..|s| - 1], s[|s| - 1];
      FilterOfAll(init, p);
      assert s == init + [last];
    }
  }

  lemma {:induction false} FilterOfNone<T>(s: seq<T>, p: T -> bool)
    requires forall i :: 0 <= i < |s| ==> !p(s[i])
    ensures Filter(s, p) == []
  {
    if s != [] {
      FilterOfNone(s[..|s| - 1], p);
    }
  }

  lemma {:induction false} FilterCongruence<T>(s: seq<T>, p: T -> bool, q: T -> bool)
    requires forall x :: x in s ==> p(x) == q(x)
    ensures Filter(s, p) == Filter(s, q)
  {
    if s != [] {
      FilterCongruence(s[..|s| - 1], p, q);
      assert s[|s| - 1] in s;
    }
  }

  /** Insertion is stable: as far as elements with one common key are concerned, it appends. */
  lemma {:induction false} InsertIsStable<T>(s: seq<T>, x: T, key: T -> SortKey, p: T -> bool)
    requires p(x) ==> UpTo(s, x, key, p)
    ensures Filter(Insert(s, x, key), p) == Filter(s, p) + if p(x) then [x] else []
  {
    FilterOfAppend(s, x, p);
    if s != [] && !Le(key(s[|s| - 1]), key(x)) {
      var init, last := s[..|s| - 1], s[|s| - 1];
      assert p(x) ==> !p(last);
      InsertIsStable(init, x, key, p);
      FilterOfAppend(Insert(init, x, key), last, p);
      assert Filter(s, p) == Filter(init, p) + if p(last) then [last] else [];
    }
  }

  /** The elements of a group already appear in key order. */
  ghost predicate InOrder<T>(s: seq<T>, key: T -> SortKey, p: T -> bool) {
    forall i, j :: 0 <= i < j < |s| && p(s[i]) && p(s[j]) ==> Le(key(s[i]), key(s[j]))
  }

  lemma ElementAt<T>(a: seq<T>, b: seq<T>, j: nat) returns (i: nat)
    requires multiset(a) == multiset(b) && j < |a|
    ensures i < |b| && b[i] == a[j]
  {
    assert a[j] in multiset(a);
    assert a[j] in multiset(b);
    i :| 0 <= i < |b| && b[i] == a[j];
  }

  lemma LastInOrder<T>(s: seq<T>, key: T -> SortKey, p: T -> bool)
    requires s != [] && InOrder(s, key, p)
    ensures InOrder(s[..|s| - 1], key, p)
    ensures p(s[|s| - 1]) ==> UpTo(Sort(s[..|s| - 1], key), s[|s| - 1], key, p)
  {
    var init, last := s[..|s| - 1], s[|s| - 1];
    var sorted := Sort(init, key);
    SortKeepsElements(init, key);
    forall j | 0 <= j < |sorted| && p(sorted[j]) && p(last) ensures Le(key(sorted[j]), key(last)) {
      var i := ElementAt(sorted, init, j);
      assert s[i] == sorted[j];
    }
  }

  /** Sorting keeps, in their order, the elements of any group that already is in key order. */
  lemma {:induction false} SortIsStable<T>(s: seq<T>, key: T -> SortKey, p: T -> bool)
    requires InOrder(s, key, p)
    ensures Filter(Sort(s, key), p) == Filter(s, p)
  {
    if s != [] {
      var init, last := s[..|s| - 1], s[|s| - 1];
      var sorted := Sort(init, key);
      LastInOrder(s, key, p);
      SortIsStable(init, key, p);
      InsertIsStable(sorted, last, key, p);
    }
  }

  ghost predicate NoRepeats<T>(s: seq<T>) {
    forall i, j :: 0 <= i < j < |s| ==> s[i] != s[j]
  }

  lemma {:induction false} CountsOnce<T>(s: seq<T>, x: T)
    requires NoRepeats(s)
    ensures multiset(s)[x] == if x in s then 1 else 0
  {
    if s != [] {
      var init, last := s[..|s| - 1], s[|s| - 1];
      CountsOnce(init, x);
      assert s == init + [last];
    }
  }

  lemma SameWithoutRepeats<T>(a: seq<T>, b: seq<T>)
    requires NoRepeats(a) && NoRepeats(b) && forall x :: x in a <==> x in b
    ensures multiset(a) == multiset(b)
  {
    forall x ensures multiset(a)[x] == multiset(b)[x] {
      CountsOnce(a, x);
      CountsOnce(b, x);
    }
  }

  /** An element that was missing, put in its place. */
  lemma InsertKeepsNoRepeats<T>(s: seq<T>, x: T, key: T -> SortKey)
    requires NoRepeats(s) && x !in s
    ensures NoRepeats(Insert(s, x, key))
    ensures forall y :: y in Insert(s, x, key) <==> y in s || y == x
  {
    if s != [] && !Le(key(s[|s| - 1]), key(x)) {
      var init, last := s[..|s| - 1], s[|s| - 1];
      InsertKeepsNoRepeats(init, x, key);
      assert s == init + [last];
      assert last !in Insert(init, x, key);
    }
  }

  lemma {:induction false} KeptFrom<T>(s: seq<T>, p: T -> bool, i: nat) returns (j: nat)
    requires i < |Filter(s, p)|
    ensures j < |s| && s[j] == Filter(s, p)[i]
  {
    var init := s[..|s| - 1];
    FilterOfLast(s, p);
    if i < |Filter(init, p)| {
      j := KeptFrom(init, p, i);
    } else {
      j := |s| - 1;
    }
  }

  /** What is left of a list in order is in order. */
  lemma {:induction false} FilterKeepsOrder<T>(s: seq<T>, key: T -> SortKey, p: T -> bool)
    requires Sorted(s, key) && NoRepeats(s)
    ensures Sorted(Filter(s, p), key) && NoRepeats(Filter(s, p))
  {
    if s != [] {
      var init, last := s[..|s| - 1], s[|s| - 1];
      FilterKeepsOrder(init, key, p);
      var kept := Filter(init, p);
      forall i | 0 <= i < |kept| ensures Le(key(kept[i]), key(last)) && kept[i] != last {
        var j := KeptFrom(init, p, i);
        assert s[j] == kept[i];
      }
    }
  }

  lemma {:induction false} FilterKeepsPairs<T(!new)>(s: seq<T>, p: T -> bool, r: (T, T) -> bool)
    requires forall i, j :: 0 <= i < j < |s| ==> r(s[i], s[j])
    ensures forall i, j :: 0 <= i < j < |Filter(s, p)| ==> r(Filter(s, p)[i], Filter(s, p)[j])
  {
    if s != [] {
      var init, last := s[..|s| - 1], s[|s| - 1];
      FilterKeepsPairs(init, p, r);
      FilterElements(init, p);
      var kept := Filter(init, p);
      forall i | 0 <= i < |kept| ensures r(kept[i], last) {
        assert kept[i] in kept;
        var j :| 0 <= j < |init| && init[j] == kept[i];
        assert r(s[j], s[|s| - 1]);
      }
    }
  }

  lemma LastIsGreatest<T>(a: seq<T>, x: T, key: T -> SortKey)
    requires Sorted(a, key) && x in a
    ensures Le(key(x), key(a[|a| - 1]))
  {
    Total(key(x), key(x));
  }

  lemma SameElements<T>(a: seq<T>, b: seq<T>)
    requires multiset(a) == multiset(b)
    ensures |a| == |b| && forall x :: x in a <==> x in b
  {
    assert |a| == |multiset(a)| == |multiset(b)| == |b|;
    forall x ensures x in a <==> x in b {
      assert x in multiset(a) <==> x in multiset(b);
    }
  }

  lemma LastTakenOff<T>(a: seq<T>)
    requires a != []
    ensures multiset(a[..|a| - 1]) == multiset(a) - multiset{a[|a| - 1]}
  {
    assert a == a[..|a| - 1] + [a[|a| - 1]];
  }

  lemma WithoutLast<T>(a: seq<T>, b: seq<T>)
    requires multiset(a) == multiset(b) && a != [] && b != [] && a[|a| - 1] == b[|b| - 1]
    ensures multiset(a[..|a| - 1]) == multiset(b[..|b| - 1])
  {
    LastTakenOff(a);
    LastTakenOff(b);
  }

  /** With no ties, the sorted order is determined by the elements alone. */
  lemma {:induction false} SortedIsUnique<T>(a: seq<T>, b: seq<T>, key: T -> SortKey)
    requires Sorted(a, key) && Sorted(b, key)
    requires multiset(a) == multiset(b)
    requires forall x, y :: x in a && y in a && key(x) == key(y) ==> x == y
    ensures a == b
  {
    SameElements(a, b);
    if a != [] {
      var x, y := a[|a| - 1], b[|b| - 1];
      LastIsGreatest(b, x, key);
      LastIsGreatest(a, y, key);
      Total(key(x), key(y));
      assert x == y;
      WithoutLast(a, b);
      SortedIsUnique(a[..|a| - 1], b[..|b| - 1], key);
      assert a == a[..|a| - 1] + [x] && b == b[..|b| - 1] + [y];
    }
  }
}
