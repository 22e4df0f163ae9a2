/** Scalar helpers shared by every value type of the kernel.
    Every scalar of the library (float, double) is modelled as a mathematical `real`. */
module Scalar {

  /** The tolerance argument of every "nearly" predicate. The library's
      `MATH_TOLERANCE<T>` is a positive per-type constant whose value is not
      part of this model, so every caller passes the tolerance explicitly. */
  type Tolerance = t: real | t >= 0.0

  /** `Abs` of the scalar utilities. */
  function Abs(x: real): (r: real)
    ensures r >= 0.0
    ensures r == x || r == -x
    ensures r == 0.0 <==> x == 0.0
  {
    if x < 0.0 then -x else x
  }

  /** `::IsNearlyEqual(a, b, tolerance)`: the absolute difference is within
      the tolerance. */
  predicate IsNearlyEqual(a: real, b: real, tolerance: Tolerance)
  {
    Abs(a - b) <= tolerance
  }

  /** Exact equality always passes the tolerance test, and the test is symmetric. */
  lemma NearlyEqualFacts(a: real, b: real, tolerance: Tolerance)
    ensures IsNearlyEqual(a, a, tolerance)
    ensures IsNearlyEqual(a, b, tolerance) <==> IsNearlyEqual(b, a, tolerance)
    ensures IsNearlyEqual(a, b, 0.0) <==> a == b
  {
  }

  /** A square is non-negative and positive away from zero. */
  lemma Square(x: real)
    ensures x * x >= 0.0
    ensures x != 0.0 ==> x * x > 0.0
  {
    if x < 0.0 {
      var y := -x;
      assert y > 0.0;
      assert y * y > 0.0;
      assert x * x == y * y;
    }
  }

  /** Sums of two, three and four squares are non-negative, and positive as
      soon as one term is non-zero. */
  lemma SumOfSquares2(a: real, b: real)
    ensures a * a + b * b >= 0.0
    ensures a != 0.0 || b != 0.0 ==> a * a + b * b > 0.0
  {
    Square(a);
    Square(b);
  }

  lemma SumOfSquares3(a: real, b: real, c: real)
    ensures a * a + b * b + c * c >= 0.0
    ensures a != 0.0 || b != 0.0 || c != 0.0 ==> a * a + b * b + c * c > 0.0
  {
    Square(a);
    Square(b);
    Square(c);
  }

  lemma SumOfSquares4(a: real, b: real, c: real, d: real)
    ensures a * a + b * b + c * c + d * d >= 0.0
    ensures a != 0.0 || b != 0.0 || c != 0.0 || d != 0.0 ==> a * a + b * b + c * c + d * d > 0.0
  {
    Square(a);
    Square(b);
    Square(c);
    Square(d);
  }

  /** Two values each within the tolerance of zero are within twice the
      tolerance of each other. */
  lemma NearlyZeroPair(a: real, b: real, tolerance: Tolerance)
    requires IsNearlyEqual(a, 0.0, tolerance) && IsNearlyEqual(b, 0.0, tolerance)
    ensures IsNearlyEqual(a, b, tolerance + tolerance)
  {
  }

  /** A fraction of a non-negative length stays between zero and the length
      exactly when the fraction lies in [0, 1]. */
  lemma FractionOfLength(t: real, l: real)
    requires l >= 0.0
    ensures 0.0 <= t <= 1.0 ==> 0.0 <= t * l <= l
    ensures l != 0.0 && t < 0.0 ==> t * l < 0.0
    ensures l != 0.0 && t > 1.0 ==> t * l > l
  {
    if 0.0 <= t <= 1.0 {
      assert l - t * l == (1.0 - t) * l;
    }
    if l != 0.0 && t > 1.0 {
      assert t * l - l == (t - 1.0) * l;
    }
  }

  /** A value not within the tolerance of zero is not zero. */
  lemma NotNearlyZero(d: real, tolerance: Tolerance)
    requires !IsNearlyEqual(d, 0.0, tolerance)
    ensures d != 0.0
  {
  }

  /** `1 / d`, the factor the inverses scale by, for a non-zero `d`. */
  function Reciprocal(d: real): (r: real)
    requires d != 0.0
    ensures d * r == 1.0
  {
    1.0 / d
  }

  /** `d` or zero, scaled by a reciprocal of `d`, is one or zero. */
  lemma ReciprocalScaled(x: real, d: real, inv: real, isD: bool)
    requires d * inv == 1.0 && x == (if isD then d else 0.0)
    ensures x * inv == (if isD then 1.0 else 0.0)
  {
  }

  /** `TReturn<T>`: the tagged success/failure result of the intersection
      solvers (`Return::CreateSuccess` / `Return::CreateFailure`). */
  datatype Return<T> = Failure | Success(value: T)
}
