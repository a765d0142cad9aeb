/** Facts about real arithmetic shared by the rest of the model, and the
    square-root hypothesis that stands in for `f64::sqrt`. */
module Reals {

  /** The model never computes a square root. Every operation that needs one
      receives a function `sqrt` and requires this predicate of it: on
      non-negative arguments it returns the non-negative square root. */
  ghost predicate IsSqrt(sqrt: real -> real) {
    forall x: real {:trigger sqrt(x)} :: 0.0 <= x ==> 0.0 <= sqrt(x) && sqrt(x) * sqrt(x) == x
  }

  /** The non-negative square root is unique, so any witness pins `sqrt` down. */
  lemma SqrtOf(sqrt: real -> real, x: real, s: real)
    requires IsSqrt(sqrt)
    requires 0.0 <= s && s * s == x
    ensures sqrt(x) == s
  {
    var q := sqrt(x);
    assert 0.0 <= q && q * q == x;
    assert (q - s) * (q + s) == 0.0;
    if q + s == 0.0 {
      assert q == 0.0 && s == 0.0;
    } else {
      assert q - s == 0.0;
    }
  }

  lemma SquareFacts(a: real)
    ensures 0.0 <= a * a
    ensures a * a == 0.0 <==> a == 0.0
  {
    if a < 0.0 {
      var b := -a;
      assert 0.0 < b * b;
      assert a * a == b * b;
    } else if 0.0 < a {
      assert 0.0 < a * a;
    }
    if a != 0.0 {
      assert (a * a) / a == a;
    }
  }

  /** A real whose square is at most 1 lies in [-1, 1]. */
  lemma SquareBound(a: real)
    ensures a * a <= 1.0 ==> -1.0 <= a <= 1.0
  {
    if 1.0 < a {
      assert 1.0 < a * a;
    } else if a < -1.0 {
      assert 1.0 < (-a) * (-a);
    }
  }

  lemma ProductNonneg(x: real, y: real)
    requires 0.0 <= x && 0.0 <= y
    ensures 0.0 <= x * y
  {
  }

  /** A fraction `t` in [0, 1] of a non-negative `d` stays within [0, d]. */
  lemma FractionBelow(t: real, d: real)
    requires 0.0 <= t <= 1.0 && 0.0 <= d
    ensures 0.0 <= t * d <= d
  {
    ProductNonneg(t, d);
    ProductNonneg(1.0 - t, d);
    assert (1.0 - t) * d == d - t * d;
  }

  /** A non-negative product with a positive factor has a non-negative cofactor. */
  lemma PositiveFactor(k: real, d: real)
    requires 0.0 < k && 0.0 <= k * d
    ensures 0.0 <= d
  {
    assert d == (k * d) / k;
  }

  /** Moving a fraction `p` of the way from `a` in [0, 1] towards 1 stays in [0, 1]. */
  lemma ConvexBound(a: real, p: real)
    requires 0.0 <= a <= 1.0 && 0.0 <= p <= 1.0
    ensures 0.0 <= a + (1.0 - a) * p <= 1.0
  {
    var d := 1.0 - a;
    ProductNonneg(d, p);
    ProductNonneg(d, 1.0 - p);
    assert d * (1.0 - p) == d - d * p;
  }
}
