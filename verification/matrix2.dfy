/** `Matrix2Real` (`Public/Math/Matrix2.h`): a 2x2 matrix stored as its two
    row vectors, with the determinant, the transpose, the inverse with its
    "unchanged when singular" fallback, the trace, the exact and tolerant
    predicates, the row-major flattening, the column views and the products. */
module Matrix2 {
  import opened Scalar
  import opened Vector2

  datatype Matrix2Real = Matrix2Real(R0: Vector2Real, R1: Vector2Real)

  /** The four-scalar constructor and `Set`, row by row. */
  function Of(r00: real, r01: real, r10: real, r11: real): Matrix2Real
  {
    Matrix2Real(Vector2Real(r00, r01), Vector2Real(r10, r11))
  }

  const COMPONENT_COUNT: nat := 4
  const IDENTITY: Matrix2Real := Of(1.0, 0.0, 0.0, 1.0)
  const ZERO: Matrix2Real := Of(0.0, 0.0, 0.0, 0.0)

  /** `ToArray`: the components in row-major order. */
  function ToArray(m: Matrix2Real): (a: seq<real>)
    ensures |a| == COMPONENT_COUNT
  {
    [m.R0.X, m.R0.Y, m.R1.X, m.R1.Y]
  }

  /** The array constructor. */
  function FromArray(a: seq<real>): Matrix2Real
    requires |a| == COMPONENT_COUNT
  {
    Of(a[0], a[1], a[2], a[3])
  }

  /** Flattening and the array constructor are inverse to each other. */
  lemma ArrayRoundTrip(m: Matrix2Real, a: seq<real>)
    ensures FromArray(ToArray(m)) == m
    ensures |a| == COMPONENT_COUNT ==> ToArray(FromArray(a)) == a
  {
  }

  /** `operator[]`: the index must be below the component count, and the
      component read is the one at that place of the row-major flattening. */
  function At(m: Matrix2Real, index: nat): (x: real)
    requires index < COMPONENT_COUNT
    ensures x == ToArray(m)[index]
  {
    if index == 0 then m.R0.X
    else if index == 1 then m.R0.Y
    else if index == 2 then m.R1.X
    else m.R1.Y
  }

  /** The column views `C0()`/`C1()` read column `j`. */
  function Column(m: Matrix2Real, j: nat): Vector2Real
    requires j < 2
  {
    if j == 0 then Vector2Real(m.R0.X, m.R1.X) else Vector2Real(m.R0.Y, m.R1.Y)
  }

  /** Writing a vector through the mutable column view `j`: column `j`
      becomes that vector and the other column is left alone. */
  function WithColumn(m: Matrix2Real, j: nat, v: Vector2Real): (r: Matrix2Real)
    requires j < 2
    ensures Column(r, j) == v
    ensures Column(r, 1 - j) == Column(m, 1 - j)
  {
    if j == 0 then Of(v.X, m.R0.Y, v.Y, m.R1.Y) else Of(m.R0.X, v.X, m.R1.X, v.Y)
  }

  /** `Determinant`: the signed area spanned by the two rows. */
  function Determinant(m: Matrix2Real): real
  {
    m.R0.X * m.R1.Y - m.R0.Y * m.R1.X
  }

  /** Scaling all four entries by `s` scales the determinant by `s` squared. */
  lemma DeterminantScaled(x: real, y: real, z: real, w: real, s: real)
    ensures Determinant(Of(x * s, y * s, z * s, w * s)) == s * s * Determinant(Of(x, y, z, w))
  {
    assert (x * s) * (w * s) == s * s * (x * w);
    assert (y * s) * (z * s) == s * s * (y * z);
  }

  /** `GetTransposed` (and `Transpose`): the rows of the result are the
      columns of the matrix. */
  function Transposed(m: Matrix2Real): (t: Matrix2Real)
    ensures t.R0 == Column(m, 0) && t.R1 == Column(m, 1)
  {
    Of(m.R0.X, m.R1.X, m.R0.Y, m.R1.Y)
  }

  function Trace(m: Matrix2Real): real
  {
    m.R0.X + m.R1.Y
  }

  function Add(a: Matrix2Real, b: Matrix2Real): Matrix2Real
  {
    Matrix2Real(Vector2.Add(a.R0, b.R0), Vector2.Add(a.R1, b.R1))
  }

  function Sub(a: Matrix2Real, b: Matrix2Real): Matrix2Real
  {
    Matrix2Real(Vector2.Sub(a.R0, b.R0), Vector2.Sub(a.R1, b.R1))
  }

  /** `matrix * scalar`, each row scaled. */
  function ScaleBy(m: Matrix2Real, s: real): Matrix2Real
  {
    Matrix2Real(Scale(m.R0, s), Scale(m.R1, s))
  }

  /** `scalar * matrix`: the same matrix as `matrix * scalar`. Both rows
      are scaled, so the determinant is scaled by the square of the scalar. */
  function ScaleLeft(s: real, m: Matrix2Real): (r: Matrix2Real)
    ensures r == ScaleBy(m, s)
    ensures Determinant(r) == s * s * Determinant(m)
  {
    Matrix2Real(Scale(m.R0, s), Scale(m.R1, s))
  }

  /** `matrix * matrix`: entry (i, j) is row i of the left matrix dotted with
      column j of the right one. */
  function Mul(a: Matrix2Real, b: Matrix2Real): Matrix2Real
  {
    Of(a.R0.X * b.R0.X + a.R0.Y * b.R1.X, a.R0.X * b.R0.Y + a.R0.Y * b.R1.Y,
       a.R1.X * b.R0.X + a.R1.Y * b.R1.X, a.R1.X * b.R0.Y + a.R1.Y * b.R1.Y)
  }

  /** `matrix * vector`: each row dotted with the vector. */
  function MulVec(m: Matrix2Real, v: Vector2Real): Vector2Real
  {
    Vector2Real(m.R0.X * v.X + m.R0.Y * v.Y, m.R1.X * v.X + m.R1.Y * v.Y)
  }

  /** `vector * matrix` as written: it also dots the vector with the rows, so
      it is the same product as `matrix * vector`. It agrees with the
      row-vector product, the vector dotted with the columns, only when the
      matrix is symmetric (see `VecMulAdjoint`). */
  function VecMul(v: Vector2Real, m: Matrix2Real): (r: Vector2Real)
    ensures r == MulVec(m, v)
    ensures IsSymmetric(m) ==> r == MulVec(Transposed(m), v)
  {
    Vector2Real(v.X * m.R0.X + v.Y * m.R0.Y, v.X * m.R1.X + v.Y * m.R1.Y)
  }

  /** Dotted with any vector `w`, `v * m` as written gives `v` dotted with
      the transpose of `m` times `w`. A row-vector product would give `v`
      dotted with `m` times `w`. */
  lemma VecMulAdjoint(v: Vector2Real, m: Matrix2Real, w: Vector2Real)
    ensures Dot(VecMul(v, m), w) == Dot(v, MulVec(Transposed(m), w))
  {
  }

  /** `GetInverted` (and `Inverse`): the matrix itself when its determinant
      is within the tolerance of zero, otherwise the adjugate scaled by the
      reciprocal of the determinant, a two-sided inverse. */
  function Inverted(m: Matrix2Real, tolerance: Tolerance): (r: Matrix2Real)
    ensures Scalar.IsNearlyEqual(Determinant(m), 0.0, tolerance) ==> r == m
    ensures !Scalar.IsNearlyEqual(Determinant(m), 0.0, tolerance) ==> Mul(m, r) == IDENTITY && Mul(r, m) == IDENTITY
  {
    var determinant := Determinant(m);
    if Scalar.IsNearlyEqual(determinant, 0.0, tolerance) then m
    else
      var invDeterminant := 1.0 / determinant;
      InverseProducts(m, invDeterminant);
      Of(invDeterminant * m.R1.Y, -invDeterminant * m.R0.Y,
         -invDeterminant * m.R1.X, invDeterminant * m.R0.X)
  }

  /** The adjugate scaled by a reciprocal of the determinant is a two-sided
      inverse. */
  lemma InverseProducts(m: Matrix2Real, inv: real)
    requires Determinant(m) * inv == 1.0
    ensures var r := Of(inv * m.R1.Y, -inv * m.R0.Y, -inv * m.R1.X, inv * m.R0.X);
      Mul(m, r) == IDENTITY && Mul(r, m) == IDENTITY
  {
    var a, b, c, d := m.R0.X, m.R0.Y, m.R1.X, m.R1.Y;
    var r := Of(inv * d, -inv * b, -inv * c, inv * a);
    assert (a * d - b * c) * inv == 1.0;
    assert a * (inv * d) + b * (-inv * c) == (a * d - b * c) * inv;
    assert a * (-inv * b) + b * (inv * a) == 0.0;
    assert c * (inv * d) + d * (-inv * c) == 0.0;
    assert c * (-inv * b) + d * (inv * a) == (a * d - b * c) * inv;
    assert Mul(m, r) == Of(1.0, 0.0, 0.0, 1.0);
    assert (inv * d) * a + (-inv * b) * c == (a * d - b * c) * inv;
    assert (inv * d) * b + (-inv * b) * d == 0.0;
    assert (-inv * c) * a + (inv * a) * c == 0.0;
    assert (-inv * c) * b + (inv * a) * d == (a * d - b * c) * inv;
    assert Mul(r, m) == Of(1.0, 0.0, 0.0, 1.0);
  }

  /** The determinant of the constants, of the transpose and of a product. */
  lemma DeterminantFacts(a: Matrix2Real, b: Matrix2Real)
    ensures Determinant(IDENTITY) == 1.0 && Determinant(ZERO) == 0.0
    ensures Determinant(Transposed(a)) == Determinant(a)
    ensures Determinant(Mul(a, b)) == Determinant(a) * Determinant(b)
  {
    var t := Transposed(a);
    assert t.R0.X == a.R0.X && t.R0.Y == a.R1.X && t.R1.X == a.R0.Y && t.R1.Y == a.R1.Y;
    assert Determinant(t) == a.R0.X * a.R1.Y - a.R1.X * a.R0.Y;
    var p := Mul(a, b);
    assert p == Of(a.R0.X * b.R0.X + a.R0.Y * b.R1.X, a.R0.X * b.R0.Y + a.R0.Y * b.R1.Y,
                   a.R1.X * b.R0.X + a.R1.Y * b.R1.X, a.R1.X * b.R0.Y + a.R1.Y * b.R1.Y);
    ProductDeterminant(a.R0.X, a.R0.Y, a.R1.X, a.R1.Y, b.R0.X, b.R0.Y, b.R1.X, b.R1.Y);
  }

  /** The 2x2 product formula, entry by entry. */
  lemma ProductDeterminant(a: real, b: real, c: real, d: real, e: real, f: real, g: real, h: real)
    ensures (a * e + b * g) * (c * f + d * h) - (a * f + b * h) * (c * e + d * g) == (a * d - b * c) * (e * h - f * g)
  {
  }

  /** Transposing twice gives the matrix back, keeps the trace, and reverses
      a product. */
  lemma TransposeFacts(a: Matrix2Real, b: Matrix2Real)
    ensures Transposed(Transposed(a)) == a
    ensures Trace(Transposed(a)) == Trace(a)
    ensures Transposed(Mul(a, b)) == Mul(Transposed(b), Transposed(a))
  {
  }

  /** `IDENTITY` is a two-sided unit of the product and fixes every vector;
      `ZERO` absorbs. */
  lemma IdentityUnit(m: Matrix2Real, v: Vector2Real)
    ensures Mul(IDENTITY, m) == m && Mul(m, IDENTITY) == m
    ensures MulVec(IDENTITY, v) == v
    ensures Mul(ZERO, m) == ZERO && Mul(m, ZERO) == ZERO
  {
  }

  /** `IsNearlyEqual`: every row within the tolerance. */
  predicate IsNearlyEqual(a: Matrix2Real, b: Matrix2Real, tolerance: Tolerance)
  {
    Vector2.IsNearlyEqual(a.R0, b.R0, tolerance) && Vector2.IsNearlyEqual(a.R1, b.R1, tolerance)
  }

  /** `IsEqual`: every component equal. */
  function IsEqual(a: Matrix2Real, b: Matrix2Real): (eq: bool)
    ensures eq <==> a == b
  {
    a.R0.X == b.R0.X && a.R0.Y == b.R0.Y && a.R1.X == b.R1.X && a.R1.Y == b.R1.Y
  }

  /** Exact equality passes every tolerance, and a zero tolerance is exact
      equality; `==` is the tolerant test and `!=` its negation. */
  lemma NearlyEqualFacts(a: Matrix2Real, b: Matrix2Real, tolerance: Tolerance)
    ensures IsEqual(a, b) ==> IsNearlyEqual(a, b, tolerance)
    ensures IsNearlyEqual(a, b, 0.0) <==> a == b
    ensures IsNearlyEqual(a, b, tolerance) <==> IsNearlyEqual(b, a, tolerance)
  {
  }

  function IsZero(m: Matrix2Real): (z: bool)
    ensures z <==> m == ZERO
  {
    IsEqual(m, Of(0.0, 0.0, 0.0, 0.0))
  }

  function IsIdentity(m: Matrix2Real): (i: bool)
    ensures i <==> m == IDENTITY
  {
    IsEqual(m, Of(1.0, 0.0, 0.0, 1.0))
  }

  predicate IsNearlyZero(m: Matrix2Real, tolerance: Tolerance)
  {
    IsNearlyEqual(m, Of(0.0, 0.0, 0.0, 0.0), tolerance)
  }

  predicate IsNearlyIdentity(m: Matrix2Real, tolerance: Tolerance)
  {
    IsNearlyEqual(m, Of(1.0, 0.0, 0.0, 1.0), tolerance)
  }

  /** `IsSymmetric`: the one mirrored pair agrees, which is exactly the
      matrix being its own transpose. */
  function IsSymmetric(m: Matrix2Real): (s: bool)
    ensures s <==> Transposed(m) == m
  {
    m.R0.Y == m.R1.X
  }

  /** `IsNearlySymmetric`: the matrix is within the tolerance of its own
      transpose. */
  function IsNearlySymmetric(m: Matrix2Real, tolerance: Tolerance): (s: bool)
    ensures s <==> IsNearlyEqual(Transposed(m), m, tolerance)
    ensures IsSymmetric(m) ==> s
  {
    Scalar.IsNearlyEqual(m.R0.Y, m.R1.X, tolerance)
  }

  /** `IsDiagonal`: both off-diagonal entries are zero, so the matrix is
      symmetric. */
  function IsDiagonal(m: Matrix2Real): (d: bool)
    ensures d <==> m == Of(m.R0.X, 0.0, 0.0, m.R1.Y)
    ensures d ==> IsSymmetric(m)
  {
    m.R0.Y == 0.0 && m.R1.X == 0.0
  }

  /** `IsNearlyDiagonal`: both off-diagonal entries are within the tolerance
      of zero, so the mirrored pair is within twice the tolerance. */
  function IsNearlyDiagonal(m: Matrix2Real, tolerance: Tolerance): (d: bool)
    ensures d <==> IsNearlyEqual(m, Of(m.R0.X, 0.0, 0.0, m.R1.Y), tolerance)
    ensures IsDiagonal(m) ==> d
    ensures d ==> IsNearlySymmetric(m, tolerance + tolerance)
  {
    Scalar.IsNearlyEqual(m.R0.Y, 0.0, tolerance) && Scalar.IsNearlyEqual(m.R1.X, 0.0, tolerance)
  }
}
