/** The real vector types used by the geometric core. Only the operations the
    matrices, lines, segments and rectangles rely on are modelled: component-wise
    addition, subtraction and scaling, the dot product, the cross product and the
    exact and tolerance-based equalities. */
module Vector2 {
  import opened Scalar

  datatype Vector2Real = Vector2Real(X: real, Y: real)

  const ZERO: Vector2Real := Vector2Real(0.0, 0.0)

  function Add(a: Vector2Real, b: Vector2Real): Vector2Real
  {
    Vector2Real(a.X + b.X, a.Y + b.Y)
  }

  function Sub(a: Vector2Real, b: Vector2Real): Vector2Real
  {
    Vector2Real(a.X - b.X, a.Y - b.Y)
  }

  function Scale(a: Vector2Real, s: real): Vector2Real
  {
    Vector2Real(a.X * s, a.Y * s)
  }

  function Dot(a: Vector2Real, b: Vector2Real): real
  {
    a.X * b.X + a.Y * b.Y
  }

  /** The 2D cross product is the signed area spanned by the two vectors. */
  function Cross(a: Vector2Real, b: Vector2Real): real
  {
    a.X * b.Y - a.Y * b.X
  }

  function LengthSquared(a: Vector2Real): (r: real)
    ensures r >= 0.0
  {
    SumOfSquares2(a.X, a.Y);
    Dot(a, a)
  }

  predicate IsNearlyEqual(a: Vector2Real, b: Vector2Real, tolerance: Tolerance)
  {
    Scalar.IsNearlyEqual(a.X, b.X, tolerance) && Scalar.IsNearlyEqual(a.Y, b.Y, tolerance)
  }

  /** The cross product is antisymmetric and vanishes on parallel vectors. */
  lemma CrossAntisymmetric(a: Vector2Real, b: Vector2Real, s: real)
    ensures Cross(b, a) == -Cross(a, b)
    ensures Cross(a, Scale(a, s)) == 0.0
  {
  }
}

module Vector3 {
  import opened Scalar

  datatype Vector3Real = Vector3Real(X: real, Y: real, Z: real)

  const ZERO: Vector3Real := Vector3Real(0.0, 0.0, 0.0)

  function Add(a: Vector3Real, b: Vector3Real): Vector3Real
  {
    Vector3Real(a.X + b.X, a.Y + b.Y, a.Z + b.Z)
  }

  function Sub(a: Vector3Real, b: Vector3Real): Vector3Real
  {
    Vector3Real(a.X - b.X, a.Y - b.Y, a.Z - b.Z)
  }

  function Scale(a: Vector3Real, s: real): Vector3Real
  {
    Vector3Real(a.X * s, a.Y * s, a.Z * s)
  }

  function Dot(a: Vector3Real, b: Vector3Real): real
  {
    a.X * b.X + a.Y * b.Y + a.Z * b.Z
  }

  function Cross(a: Vector3Real, b: Vector3Real): Vector3Real
  {
    Vector3Real(a.Y * b.Z - a.Z * b.Y, a.Z * b.X - a.X * b.Z, a.X * b.Y - a.Y * b.X)
  }

  /** The cross product is orthogonal to both of its operands. */
  lemma CrossOrthogonal(a: Vector3Real, b: Vector3Real)
    ensures Dot(a, Cross(a, b)) == 0.0 && Dot(b, Cross(a, b)) == 0.0
  {
  }

  lemma DotCommutes(a: Vector3Real, b: Vector3Real)
    ensures Dot(a, b) == Dot(b, a)
  {
  }

  /** A vector is parallel to every multiple of itself. */
  lemma CrossScaledSelf(a: Vector3Real, s: real)
    ensures Cross(a, Scale(a, s)) == ZERO
  {
  }

  /** A scalar factor on either operand comes out of the dot product. */
  lemma DotScaled(a: Vector3Real, b: Vector3Real, s: real)
    ensures Dot(a, Scale(b, s)) == Dot(a, b) * s
    ensures Dot(Scale(a, s), b) == Dot(a, b) * s
  {
  }

  /** The scalar triple product is unchanged by a cyclic shift of its
      three vectors. */
  lemma TripleProductCyclic(a: Vector3Real, b: Vector3Real, c: Vector3Real)
    ensures Dot(a, Cross(b, c)) == Dot(b, Cross(c, a))
    ensures Dot(b, Cross(c, a)) == Dot(c, Cross(a, b))
  {
    TripleProductExpands(a, b, c);
    TripleProductExpands(b, c, a);
    TripleProductExpands(c, a, b);
  }

  /** The scalar triple product as a signed sum of six monomials. */
  lemma TripleProductExpands(a: Vector3Real, b: Vector3Real, c: Vector3Real)
    ensures Dot(a, Cross(b, c))
         == a.X * b.Y * c.Z - a.X * b.Z * c.Y - a.Y * b.X * c.Z + a.Y * b.Z * c.X + a.Z * b.X * c.Y - a.Z * b.Y * c.X
  {
  }

  function LengthSquared(a: Vector3Real): (r: real)
    ensures r >= 0.0
  {
    SumOfSquares3(a.X, a.Y, a.Z);
    Dot(a, a)
  }

  predicate IsNearlyEqual(a: Vector3Real, b: Vector3Real, tolerance: Tolerance)
  {
    && Scalar.IsNearlyEqual(a.X, b.X, tolerance)
    && Scalar.IsNearlyEqual(a.Y, b.Y, tolerance)
    && Scalar.IsNearlyEqual(a.Z, b.Z, tolerance)
  }
}

module Vector4 {
  import opened Scalar

  datatype Vector4Real = Vector4Real(X: real, Y: real, Z: real, W: real)

  const ZERO: Vector4Real := Vector4Real(0.0, 0.0, 0.0, 0.0)

  function Add(a: Vector4Real, b: Vector4Real): Vector4Real
  {
    Vector4Real(a.X + b.X, a.Y + b.Y, a.Z + b.Z, a.W + b.W)
  }

  function Sub(a: Vector4Real, b: Vector4Real): Vector4Real
  {
    Vector4Real(a.X - b.X, a.Y - b.Y, a.Z - b.Z, a.W - b.W)
  }

  function Neg(a: Vector4Real): Vector4Real
  {
    Vector4Real(-a.X, -a.Y, -a.Z, -a.W)
  }

  function Scale(a: Vector4Real, s: real): Vector4Real
  {
    Vector4Real(a.X * s, a.Y * s, a.Z * s, a.W * s)
  }

  function Dot(a: Vector4Real, b: Vector4Real): real
  {
    a.X * b.X + a.Y * b.Y + a.Z * b.Z + a.W * b.W
  }

  lemma DotCommutes(a: Vector4Real, b: Vector4Real)
    ensures Dot(a, b) == Dot(b, a)
  {
  }

  /** A scalar factor or a negation on the second operand comes out of the
      dot product. */
  lemma DotScaled(a: Vector4Real, b: Vector4Real, s: real)
    ensures Dot(a, Scale(b, s)) == Dot(a, b) * s
    ensures Dot(a, Neg(b)) == -Dot(a, b)
  {
  }

  predicate IsNearlyEqual(a: Vector4Real, b: Vector4Real, tolerance: Tolerance)
  {
    && Scalar.IsNearlyEqual(a.X, b.X, tolerance)
    && Scalar.IsNearlyEqual(a.Y, b.Y, tolerance)
    && Scalar.IsNearlyEqual(a.Z, b.Z, tolerance)
    && Scalar.IsNearlyEqual(a.W, b.W, tolerance)
  }

  /** Exact equality passes every tolerance, a zero tolerance is exact
      equality, and the test is symmetric. */
  lemma NearlyEqualFacts(a: Vector4Real, b: Vector4Real, tolerance: Tolerance)
    ensures a == b ==> IsNearlyEqual(a, b, tolerance)
    ensures IsNearlyEqual(a, b, 0.0) <==> a == b
    ensures IsNearlyEqual(a, b, tolerance) <==> IsNearlyEqual(b, a, tolerance)
  {
  }
}
