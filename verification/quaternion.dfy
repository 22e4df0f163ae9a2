/** `QuaternionReal` (`Public/Math/Quaternion.h`): a quaternion stored as its
    scalar part W followed by its imaginary parts X, Y, Z, with the Hamilton
    product, the conjugate, the dot product, the inverse, the fallback branch
    of the normalisation and the exact and tolerant predicates. */
module Quaternion {
  import opened Scalar

  datatype QuaternionReal = QuaternionReal(W: real, X: real, Y: real, Z: real)

  const COMPONENT_COUNT: nat := 4
  /** The default constructor, `SetZero` and `ZERO`: every component zero. */
  const ZERO: QuaternionReal := QuaternionReal(0.0, 0.0, 0.0, 0.0)
  const IDENTITY: QuaternionReal := QuaternionReal(1.0, 0.0, 0.0, 0.0)

  /** `ToArray`: W first, then X, Y, Z. */
  function ToArray(q: QuaternionReal): (a: seq<real>)
    ensures |a| == COMPONENT_COUNT
  {
    [q.W, q.X, q.Y, q.Z]
  }

  /** The array constructor. */
  function FromArray(a: seq<real>): QuaternionReal
    requires |a| == COMPONENT_COUNT
  {
    QuaternionReal(a[0], a[1], a[2], a[3])
  }

  /** Flattening and the array constructor are inverse to each other. */
  lemma ArrayRoundTrip(q: QuaternionReal, a: seq<real>)
    ensures FromArray(ToArray(q)) == q
    ensures |a| == COMPONENT_COUNT ==> ToArray(FromArray(a)) == a
  {
  }

  /** `operator[]`: the index must be below the component count, and the
      component read is the one at that place of `ToArray`, so index 0 is
      the scalar part. */
  function At(q: QuaternionReal, index: nat): (x: real)
    requires index < COMPONENT_COUNT
    ensures x == ToArray(q)[index]
    ensures index == 0 ==> x == q.W
  {
    if index == 0 then q.W
    else if index == 1 then q.X
    else if index == 2 then q.Y
    else q.Z
  }

  /** `Conjugated` (and `Conjugate`): the imaginary parts negated. */
  function Conjugated(q: QuaternionReal): (c: QuaternionReal)
    ensures c.W == q.W && Add(c, q) == QuaternionReal(q.W + q.W, 0.0, 0.0, 0.0)
  {
    QuaternionReal(q.W, -q.X, -q.Y, -q.Z)
  }

  /** Conjugating twice gives the quaternion back. */
  lemma ConjugateInvolution(q: QuaternionReal)
    ensures Conjugated(Conjugated(q)) == q
  {
  }

  /** Unary `operator-` as the library writes it: the scalar part is kept
      and only the imaginary parts are negated, so it is the conjugate.
      Added to the quaternion it leaves twice the scalar part instead of
      zero, and the product `q * (-q)` is the squared length on the real
      axis instead of `-(q * q)`. */
  function NegatedAsWritten(q: QuaternionReal): (r: QuaternionReal)
    ensures r.W == q.W && Add(q, r) == QuaternionReal(q.W + q.W, 0.0, 0.0, 0.0)
    ensures Mul(q, r) == QuaternionReal(LengthSquared(q), 0.0, 0.0, 0.0)
  {
    ConjugateProduct(q);
    QuaternionReal(q.W, -q.X, -q.Y, -q.Z)
  }

  /** The as-written unary minus is not an additive inverse as soon as the
      scalar part is non-zero: `q + (-q)` keeps twice the scalar part. */
  lemma NegatedAsWrittenIsNotNegation(q: QuaternionReal)
    requires q.W != 0.0
    ensures Add(q, NegatedAsWritten(q)) != ZERO
    ensures Add(IDENTITY, NegatedAsWritten(IDENTITY)) == QuaternionReal(2.0, 0.0, 0.0, 0.0)
  {
    assert Add(q, NegatedAsWritten(q)).W == q.W + q.W;
  }

  /** Unary minus as a full negation: every component negated, the additive
      inverse. */
  function Negated(q: QuaternionReal): (r: QuaternionReal)
    ensures Add(q, r) == ZERO && Add(r, q) == ZERO
  {
    QuaternionReal(-q.W, -q.X, -q.Y, -q.Z)
  }

  /** `DotProduct`: the sum of the component-wise products. */
  function Dot(a: QuaternionReal, b: QuaternionReal): real
  {
    a.W * b.W + a.X * b.X + a.Y * b.Y + a.Z * b.Z
  }

  lemma DotCommutes(a: QuaternionReal, b: QuaternionReal)
    ensures Dot(a, b) == Dot(b, a)
  {
  }

  /** `LengthSquared`: the dot product with itself. */
  function LengthSquared(q: QuaternionReal): (r: real)
    ensures r == Dot(q, q)
  {
    q.W * q.W + q.X * q.X + q.Y * q.Y + q.Z * q.Z
  }

  /** The squared length is never negative. */
  lemma LengthSquaredNonNegative(q: QuaternionReal)
    ensures LengthSquared(q) >= 0.0
  {
    SumOfSquares4(q.W, q.X, q.Y, q.Z);
  }

  function Add(a: QuaternionReal, b: QuaternionReal): QuaternionReal
  {
    QuaternionReal(a.W + b.W, a.X + b.X, a.Y + b.Y, a.Z + b.Z)
  }

  function Sub(a: QuaternionReal, b: QuaternionReal): QuaternionReal
  {
    QuaternionReal(a.W - b.W, a.X - b.X, a.Y - b.Y, a.Z - b.Z)
  }

  /** Subtraction undoes addition, and both are component-wise. */
  lemma AddSub(a: QuaternionReal, b: QuaternionReal)
    ensures Sub(Add(a, b), b) == a && Add(Sub(a, b), b) == a
    ensures Add(a, b) == Add(b, a)
  {
  }

  /** `quaternion * scalar`. */
  function ScaleBy(q: QuaternionReal, s: real): QuaternionReal
  {
    QuaternionReal(q.W * s, q.X * s, q.Y * s, q.Z * s)
  }

  /** `scalar * quaternion`: the same value as `quaternion * scalar`, whose
      squared length is the squared length scaled by the square of the
      scalar. */
  function ScaleLeft(s: real, q: QuaternionReal): (r: QuaternionReal)
    ensures r == ScaleBy(q, s)
    ensures LengthSquared(r) == s * s * LengthSquared(q)
  {
    LengthSquaredScaled(q, s);
    QuaternionReal(s * q.W, s * q.X, s * q.Y, s * q.Z)
  }

  /** `quaternion / scalar`: every component times the reciprocal of a
      non-zero divisor, so scaling the result back by the divisor gives the
      quaternion again. */
  function Divide(q: QuaternionReal, s: real): (r: QuaternionReal)
    requires s != 0.0
    ensures ScaleBy(r, s) == q
  {
    var inv := Reciprocal(s);
    ReciprocalCancels(q, s, inv);
    ScaleBy(q, inv)
  }

  lemma ReciprocalCancels(q: QuaternionReal, s: real, inv: real)
    requires s * inv == 1.0
    ensures ScaleBy(ScaleBy(q, inv), s) == q
  {
    assert q.W * inv * s == q.W * (s * inv);
    assert q.X * inv * s == q.X * (s * inv);
    assert q.Y * inv * s == q.Y * (s * inv);
    assert q.Z * inv * s == q.Z * (s * inv);
  }

  /** `operator*` between quaternions: the Hamilton product. */
  function Mul(a: QuaternionReal, b: QuaternionReal): QuaternionReal
  {
    QuaternionReal(
      a.W * b.W - a.X * b.X - a.Y * b.Y - a.Z * b.Z,
      a.W * b.X + a.X * b.W + a.Y * b.Z - a.Z * b.Y,
      a.W * b.Y + a.Y * b.W + a.Z * b.X - a.X * b.Z,
      a.W * b.Z + a.Z * b.W + a.X * b.Y - a.Y * b.X)
  }

  /** The member `CrossProduct`: the same value as `operator*`. Like the
      Hamilton product it reverses under conjugation: the conjugate of the
      product is the product of the conjugates in the other order. */
  function CrossProduct(a: QuaternionReal, b: QuaternionReal): (r: QuaternionReal)
    ensures r == Mul(a, b)
    ensures Conjugated(r) == Mul(Conjugated(b), Conjugated(a))
  {
    ConjugateOfProduct(a, b);
    QuaternionReal(
      a.W * b.W - a.X * b.X - a.Y * b.Y - a.Z * b.Z,
      a.W * b.X + a.X * b.W + a.Y * b.Z - a.Z * b.Y,
      a.W * b.Y + a.Y * b.W + a.Z * b.X - a.X * b.Z,
      a.W * b.Z + a.Z * b.W + a.X * b.Y - a.Y * b.X)
  }

  /** The conjugate of a Hamilton product is the product of the conjugates
      in the other order, component by component. */
  lemma ConjugateOfProduct(a: QuaternionReal, b: QuaternionReal)
    ensures Conjugated(Mul(a, b)) == Mul(Conjugated(b), Conjugated(a))
  {
    ConjugateProductTerms(a.W, a.X, a.Y, a.Z, b.W, b.X, b.Y, b.Z);
  }

  /** `ConjugateOfProduct` over the components: each component of the
      product of the conjugates, in reverse order, against the conjugated
      product. */
  lemma ConjugateProductTerms(a0: real, a1: real, a2: real, a3: real, b0: real, b1: real, b2: real, b3: real)
    ensures b0 * a0 - (-b1) * (-a1) - (-b2) * (-a2) - (-b3) * (-a3) == a0 * b0 - a1 * b1 - a2 * b2 - a3 * b3
    ensures b0 * (-a1) + (-b1) * a0 + (-b2) * (-a3) - (-b3) * (-a2) == -(a0 * b1 + a1 * b0 + a2 * b3 - a3 * b2)
    ensures b0 * (-a2) + (-b2) * a0 + (-b3) * (-a1) - (-b1) * (-a3) == -(a0 * b2 + a2 * b0 + a3 * b1 - a1 * b3)
    ensures b0 * (-a3) + (-b3) * a0 + (-b1) * (-a2) - (-b2) * (-a1) == -(a0 * b3 + a3 * b0 + a1 * b2 - a2 * b1)
  {
  }

  /** `IDENTITY` is a two-sided unit of the Hamilton product and `ZERO`
      absorbs it. */
  lemma IdentityUnit(q: QuaternionReal)
    ensures Mul(IDENTITY, q) == q && Mul(q, IDENTITY) == q
    ensures Mul(ZERO, q) == ZERO && Mul(q, ZERO) == ZERO
  {
  }

  /** A quaternion times its conjugate, on either side, is the real
      quaternion holding its squared length. */
  lemma ConjugateProduct(q: QuaternionReal)
    ensures Mul(q, Conjugated(q)) == QuaternionReal(LengthSquared(q), 0.0, 0.0, 0.0)
    ensures Mul(Conjugated(q), q) == QuaternionReal(LengthSquared(q), 0.0, 0.0, 0.0)
  {
  }

  /** `GetInverse`: the conjugate divided by the squared length. The
      library does not guard against a zero squared length; over the reals
      the division needs a non-zero one, and then the result is a two-sided
      inverse. */
  function Inverse(q: QuaternionReal): (r: QuaternionReal)
    requires LengthSquared(q) != 0.0
    ensures Mul(q, r) == IDENTITY && Mul(r, q) == IDENTITY
  {
    var length := LengthSquared(q);
    var inv := Reciprocal(length);
    InverseProducts(q, length, inv);
    Divide(Conjugated(q), length)
  }

  lemma InverseProducts(q: QuaternionReal, length: real, inv: real)
    requires length == LengthSquared(q) && length * inv == 1.0
    ensures ScaleBy(Conjugated(q), inv) == Divide(Conjugated(q), length)
    ensures Mul(q, ScaleBy(Conjugated(q), inv)) == IDENTITY
    ensures Mul(ScaleBy(Conjugated(q), inv), q) == IDENTITY
  {
    InverseRight(q, length, inv);
    InverseLeft(q, length, inv);
  }

  lemma InverseRight(q: QuaternionReal, length: real, inv: real)
    requires length == LengthSquared(q) && length * inv == 1.0
    ensures Mul(q, ScaleBy(Conjugated(q), inv)) == IDENTITY
  {
    var c := ScaleBy(Conjugated(q), inv);
    assert c == QuaternionReal(q.W * inv, -q.X * inv, -q.Y * inv, -q.Z * inv);
    assert q.W * (q.W * inv) - q.X * (-q.X * inv) - q.Y * (-q.Y * inv) - q.Z * (-q.Z * inv) == length * inv;
  }

  lemma InverseLeft(q: QuaternionReal, length: real, inv: real)
    requires length == LengthSquared(q) && length * inv == 1.0
    ensures Mul(ScaleBy(Conjugated(q), inv), q) == IDENTITY
  {
    var c := ScaleBy(Conjugated(q), inv);
    assert c == QuaternionReal(q.W * inv, -q.X * inv, -q.Y * inv, -q.Z * inv);
    assert (q.W * inv) * q.W - (-q.X * inv) * q.X - (-q.Y * inv) * q.Y - (-q.Z * inv) * q.Z == length * inv;
  }

  /** `GetNormalized(tolerance)`: a quaternion whose squared length is
      above the tolerance is scaled by the inverse square root of that
      squared length; any other is returned unchanged. The inverse square
      root is `InvSqrt` of the scalar utilities, which is not part of this
      model, so it is a parameter. */
  function Normalized(q: QuaternionReal, tolerance: Tolerance, invSqrt: real -> real): (r: QuaternionReal)
    ensures LengthSquared(q) <= tolerance ==> r == q
    ensures LengthSquared(q) > tolerance ==> r == ScaleBy(q, invSqrt(LengthSquared(q)))
  {
    var length := LengthSquared(q);
    if length > tolerance then ScaleBy(q, invSqrt(length)) else q
  }

  /** When `invSqrt` is an inverse square root at the squared length, the
      normalised quaternion has length one; below the tolerance it keeps
      its own length. */
  lemma NormalizedIsUnit(q: QuaternionReal, tolerance: Tolerance, invSqrt: real -> real)
    requires LengthSquared(q) > tolerance
    requires invSqrt(LengthSquared(q)) * invSqrt(LengthSquared(q)) * LengthSquared(q) == 1.0
    ensures LengthSquared(Normalized(q, tolerance, invSqrt)) == 1.0
  {
    var k := invSqrt(LengthSquared(q));
    LengthSquaredScaled(q, k);
  }

  /** Scaling by `k` multiplies the squared length by `k * k`. */
  lemma LengthSquaredScaled(q: QuaternionReal, k: real)
    ensures LengthSquared(ScaleBy(q, k)) == k * k * LengthSquared(q)
  {
    assert LengthSquared(ScaleBy(q, k)) == (q.W * k) * (q.W * k) + (q.X * k) * (q.X * k) + (q.Y * k) * (q.Y * k) + (q.Z * k) * (q.Z * k);
  }

  /** `IsNearlyEqual`: every component within the tolerance. */
  predicate IsNearlyEqual(a: QuaternionReal, b: QuaternionReal, tolerance: Tolerance)
  {
    && Scalar.IsNearlyEqual(a.W, b.W, tolerance)
    && Scalar.IsNearlyEqual(a.X, b.X, tolerance)
    && Scalar.IsNearlyEqual(a.Y, b.Y, tolerance)
    && Scalar.IsNearlyEqual(a.Z, b.Z, tolerance)
  }

  /** `IsEqual`: exact component-wise equality. */
  function IsEqual(a: QuaternionReal, b: QuaternionReal): (eq: bool)
    ensures eq <==> a == b
  {
    a.W == b.W && a.X == b.X && a.Y == b.Y && a.Z == b.Z
  }

  /** `operator==` compares with `IsNearlyEqual` at the library tolerance,
      here an explicit one, and `operator!=` is its negation. */
  function Equals(a: QuaternionReal, b: QuaternionReal, tolerance: Tolerance): (eq: bool)
    ensures IsEqual(a, b) ==> eq
    ensures eq == IsNearlyEqual(b, a, tolerance)
    ensures tolerance == 0.0 ==> (eq <==> a == b)
  {
    NearlyEqualFacts(a.W, b.W, tolerance);
    NearlyEqualFacts(a.X, b.X, tolerance);
    NearlyEqualFacts(a.Y, b.Y, tolerance);
    NearlyEqualFacts(a.Z, b.Z, tolerance);
    IsNearlyEqual(a, b, tolerance)
  }

  function NotEquals(a: QuaternionReal, b: QuaternionReal, tolerance: Tolerance): (ne: bool)
    ensures ne <==> !Equals(a, b, tolerance)
  {
    !IsNearlyEqual(a, b, tolerance)
  }

  /** `IsZero`: every component exactly zero. */
  function IsZero(q: QuaternionReal): (z: bool)
    ensures z <==> q == ZERO
  {
    q.W == 0.0 && q.X == 0.0 && q.Y == 0.0 && q.Z == 0.0
  }

  /** `IsNearlyZero`: every component within the tolerance of zero. */
  function IsNearlyZero(q: QuaternionReal, tolerance: Tolerance): (z: bool)
    ensures z <==> IsNearlyEqual(q, ZERO, tolerance)
    ensures IsZero(q) ==> z
  {
    && Scalar.IsNearlyEqual(q.W, 0.0, tolerance)
    && Scalar.IsNearlyEqual(q.X, 0.0, tolerance)
    && Scalar.IsNearlyEqual(q.Y, 0.0, tolerance)
    && Scalar.IsNearlyEqual(q.Z, 0.0, tolerance)
  }

  /** `IsReal`: the scalar part is not within the tolerance of zero and the
      imaginary parts are. With no tolerance that is a non-zero quaternion
      with no imaginary part. */
  function IsReal(q: QuaternionReal, tolerance: Tolerance): (r: bool)
    ensures r ==> q.W != 0.0
    ensures tolerance == 0.0 ==> (r <==> q.W != 0.0 && q == QuaternionReal(q.W, 0.0, 0.0, 0.0))
  {
    && !Scalar.IsNearlyEqual(q.W, 0.0, tolerance)
    && Scalar.IsNearlyEqual(q.X, 0.0, tolerance)
    && Scalar.IsNearlyEqual(q.Y, 0.0, tolerance)
    && Scalar.IsNearlyEqual(q.Z, 0.0, tolerance)
  }

  /** `IDENTITY` is real under any tolerance below one, and `ZERO` never is. */
  lemma RealConstants(tolerance: Tolerance)
    ensures tolerance < 1.0 ==> IsReal(IDENTITY, tolerance)
    ensures !IsReal(ZERO, tolerance)
  {
  }
}
