/** Sums over the values of a dictionary whose iteration order does not matter. */
module Sums {
  import opened Prelude

  /** The sum of all values of m. */
  ghost function Total<K>(m: map<K, real>): real {
    if m == map[] then 0.0
    else
      var k :| k in m;
      m[k] + Total(m - {k})
  }

  /** The same sum, taken after removing any key: the order of summation is immaterial. */
  lemma {:induction false} TotalRemove<K>(m: map<K, real>, k: K)
    requires k in m
    ensures Total(m) == m[k] + Total(m - {k})
    decreases |m|
  {
    var j :| j in m && Total(m) == m[j] + Total(m - {j});
    if j != k {
      CardinalityRemove(m, j);
      CardinalityRemove(m, k);
      TotalRemove(m - {j}, k);
      TotalRemove(m - {k}, j);
      assert m - {j} - {k} == m - {k} - {j};
    }
  }

  lemma CardinalityRemove<K>(m: map<K, real>, k: K)
    requires k in m
    ensures |m - {k}| < |m|
  {
    assert (m - {k}).Keys == m.Keys - {k};
    assert |(m - {k}).Keys| == |m.Keys| - 1;
    assert |m| == |m.Keys|;
    assert |m - {k}| == |(m - {k}).Keys|;
  }

  lemma TotalUpdate<K>(m: map<K, real>, k: K, v: real)
    ensures Total(m[k := v]) == v + Total(m - {k})
    ensures k !in m ==> Total(m[k := v]) == v + Total(m)
  {
    TotalRemove(m[k := v], k);
    assert m[k := v] - {k} == m - {k};
    if k !in m {
      assert m - {k} == m;
    }
  }

  lemma {:induction false} TotalAdd<K>(m: map<K, real>, n: map<K, real>, r: map<K, real>)
    requires m.Keys == n.Keys == r.Keys
    requires forall k :: k in r ==> r[k] == m[k] + n[k]
    ensures Total(r) == Total(m) + Total(n)
    decreases |r|
  {
    if r == map[] {
      assert m == map[] && n == map[];
    } else {
      var k :| k in r;
      TotalRemove(r, k);
      TotalRemove(m, k);
      TotalRemove(n, k);
      CardinalityRemove(r, k);
      TotalAdd(m - {k}, n - {k}, r - {k});
    }
  }

  lemma {:induction false} TotalOfParts<K>(a: map<K, real>, b: map<K, real>, r: map<K, real>)
    requires a.Keys !! b.Keys && r.Keys == a.Keys + b.Keys
    requires forall k :: k in a ==> r[k] == a[k]
    requires forall k :: k in b ==> r[k] == b[k]
    ensures Total(r) == Total(a) + Total(b)
    decreases |a|
  {
    if a == map[] {
      assert r == b;
    } else {
      var k :| k in a;
      CardinalityRemove(a, k);
      PartRemoved(a, b, r, k);
      TotalOfParts(a - {k}, b, r - {k});
      TotalRemove(a, k);
      TotalRemove(r, k);
    }
  }

  lemma PartRemoved<K>(a: map<K, real>, b: map<K, real>, r: map<K, real>, k: K)
    requires a.Keys !! b.Keys && r.Keys == a.Keys + b.Keys && k in a
    ensures (a - {k}).Keys !! b.Keys && (r - {k}).Keys == (a - {k}).Keys + b.Keys
  {
  }

  function Plus(a: real, b: real): real {
    a + b
  }

  /** An additive function of the values commutes with summation. */
  lemma {:induction false} TotalAdditive<K>(m: map<K, real>, r: map<K, real>, g: real -> real)
    requires m.Keys == r.Keys
    requires forall k :: k in r ==> r[k] == g(m[k])
    requires forall a, b {:trigger g(Plus(a, b))} :: g(Plus(a, b)) == g(a) + g(b)
    ensures Total(r) == g(Total(m))
    decreases |r|
  {
    if r == map[] {
      assert m == map[];
      assert g(Plus(0.0, 0.0)) == g(0.0) + g(0.0);
    } else {
      var k :| k in r;
      CardinalityRemove(r, k);
      TotalAdditive(m - {k}, r - {k}, g);
      TotalRemove(r, k);
      TotalRemove(m, k);
      assert g(Plus(m[k], Total(m - {k}))) == g(m[k]) + g(Total(m - {k}));
    }
  }

  lemma TotalScale<K>(m: map<K, real>, r: map<K, real>, f: real)
    requires m.Keys == r.Keys
    requires forall k :: k in r ==> r[k] == Times(m[k], f)
    ensures Total(r) == Times(Total(m), f)
  {
    var g := (x: real) => Times(x, f);
    forall a, b ensures g(Plus(a, b)) == g(a) + g(b) {
      Distribute(a, b, f);
    }
    TotalAdditive(m, r, g);
  }

  lemma {:induction false} TotalMono<K>(m: map<K, real>, n: map<K, real>)
    requires m.Keys == n.Keys
    requires forall k :: k in m ==> m[k] <= n[k]
    ensures Total(m) <= Total(n)
    decreases |m|
  {
    if m == map[] {
      assert n == map[];
    } else {
      var k :| k in m;
      TotalRemove(m, k);
      TotalRemove(n, k);
      CardinalityRemove(m, k);
      TotalMono(m - {k}, n - {k});
    }
  }

  lemma {:induction false} TotalNonNegative<K>(m: map<K, real>)
    requires forall k :: k in m ==> 0.0 <= m[k]
    ensures 0.0 <= Total(m)
    ensures forall k :: k in m ==> m[k] <= Total(m)
    decreases |m|
  {
    if m == map[] {
    } else {
      forall k | k in m ensures 0.0 <= m[k] <= Total(m) {
        TotalRemove(m, k);
        CardinalityRemove(m, k);
        TotalNonNegative(m - {k});
      }
      var k :| k in m;
      assert 0.0 <= m[k] <= Total(m);
    }
  }

  /** Keys whose value is zero can be added or dropped freely. */
  lemma {:induction false} TotalIgnoresZeros<K>(m: map<K, real>, n: map<K, real>)
    requires forall k :: k in m && k in n ==> m[k] == n[k]
    requires forall k :: k in m && k !in n ==> m[k] == 0.0
    requires forall k :: k in n && k !in m ==> n[k] == 0.0
    ensures Total(m) == Total(n)
    decreases |m| + |n|
  {
    if k :| k in m {
      TotalRemove(m, k);
      CardinalityRemove(m, k);
      if k in n {
        TotalRemove(n, k);
        CardinalityRemove(n, k);
        TotalIgnoresZeros(m - {k}, n - {k});
      } else {
        TotalIgnoresZeros(m - {k}, n);
      }
    } else if k :| k in n {
      TotalRemove(n, k);
      CardinalityRemove(n, k);
      TotalIgnoresZeros(m, n - {k});
    } else {
      assert m == map[] && n == map[];
    }
  }

  /** The library `sum` over a dictionary's values, in whatever order it iterates. */
  method SumValues<K>(m: map<K, real>) returns (total: real)
    ensures total == Total(m)
  {
    total := 0.0;
    var todo := m;
    while todo != map[]
      invariant total + Total(todo) == Total(m)
      decreases |todo|
    {
      var k :| k in todo;
      TotalRemove(todo, k);
      CardinalityRemove(todo, k);
      total := total + todo[k];
      todo := todo - {k};
    }
  }
}
