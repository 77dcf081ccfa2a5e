/** Small shared vocabulary: optional values and a little real arithmetic. */
module Prelude {

  datatype Option<+T> = None | Some(value: T)

  function Abs(x: real): (r: real)
    ensures 0.0 <= r && (r == x || r == -x)
  {
    if x < 0.0 then -x else x
  }

  function Min(x: real, y: real): (r: real)
    ensures r <= x && r <= y && (r == x || r == y)
  {
    if x <= y then x else y
  }

  function Max(x: real, y: real): (r: real)
    ensures r >= x && r >= y && (r == x || r == y)
  {
    if x >= y then x else y
  }

  /** A product, named so that it can stand under a quantifier. */
  function Times(x: real, f: real): real {
    x * f
  }

  /** A multiplication by a non-negative factor of at most one moves a value toward zero. */
  lemma ShrinkTowardZero(x: real, f: real)
    requires 0.0 <= f <= 1.0
    ensures 0.0 <= Times(x, f) <= x || x <= Times(x, f) <= 0.0
  {
    if x >= 0.0 {
      ProductNonNegative(x, f);
      ProductNonNegative(x, 1.0 - f);
    } else {
      ProductNonNegative(-x, f);
      ProductNonNegative(-x, 1.0 - f);
    }
  }

  lemma ProductNonNegative(x: real, y: real)
    requires 0.0 <= x && 0.0 <= y
    ensures 0.0 <= x * y
  {
  }

  lemma AbsScales(x: real, f: real)
    requires 0.0 <= f
    ensures Abs(Times(x, f)) == Times(Abs(x), f)
  {
    MulMono(0.0, f, Abs(x));
  }

  lemma MulMono(a: real, b: real, c: real)
    requires a <= b && 0.0 <= c
    ensures a * c <= b * c
  {
    assert (b - a) * c >= 0.0;
  }

  lemma Distribute(a: real, b: real, f: real)
    ensures Times(a + b, f) == Times(a, f) + Times(b, f)
  {
  }

  /** A share num/den of den is num. */
  lemma RatioInUnit(num: real, den: real)
    requires 0.0 <= num <= den && 0.0 < den
    ensures 0.0 <= num / den <= 1.0
    ensures Times(den, num / den) == num
    ensures Times(den, 1.0 - num / den) == den - num
  {
    assert den * (num / den) == num;
  }

  /** A loss of at least the given part, as a level: no more than the rest is left. */
  lemma FellIff(equity: real, from: real, part: real)
    requires from > 0.0
    ensures equity / from - 1.0 <= -part <==> equity <= Times(1.0 - part, from)
  {
    var ratio := equity / from;
    assert Times(ratio, from) == equity;
    if ratio <= 1.0 - part {
      MulMono(ratio, 1.0 - part, from);
    } else {
      assert Times(ratio - (1.0 - part), from) > 0.0;
      Distribute(ratio - (1.0 - part), 1.0 - part, from);
    }
  }

  /** The library rounding: to the nearest integer, halves to the even one. */
  function Round(x: real): (r: int)
    ensures x - 0.5 <= r as real <= x + 0.5
    ensures x == r as real + 0.5 || x == r as real - 0.5 ==> r % 2 == 0
  {
    var f := x.Floor;
    var rest := x - f as real;
    if rest < 0.5 || (rest == 0.5 && f % 2 == 0) then f else f + 1
  }

  lemma SubsetSize<T>(a: set<T>, b: set<T>)
    requires a <= b
    ensures |a| <= |b|
  {
    assert b == a + (b - a);
  }

  lemma UnionSize<T>(a: set<T>, b: set<T>)
    ensures |a + b| <= |a| + |b|
  {
    assert a + b == a + (b - a);
    assert b == (b - a) + (a * b);
  }
}
