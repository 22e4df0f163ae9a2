/** `Matrix4Real` (`Public/Math/Matrix4.h`): a 4x4 matrix stored as its four
    row vectors. Its determinant expands along row 0 over `Matrix3Real`
    minors. Unlike the 3x3 version, its `GetAdjoint` already is the
    adjugate (cofactor (j, i) at place (i, j)), and `GetInverted` still
    transposes it before dividing by the determinant, so it yields the
    transpose of the inverse. */
module Matrix4 {
  import opened Scalar
  import opened Vector4
  import Matrix2
  import Matrix3

  datatype Matrix4Real = Matrix4Real(R0: Vector4Real, R1: Vector4Real, R2: Vector4Real, R3: Vector4Real)

  /** The sixteen-scalar constructor and `Set`, row by row. */
  function Of(r00: real, r01: real, r02: real, r03: real, r10: real, r11: real, r12: real, r13: real,
              r20: real, r21: real, r22: real, r23: real, r30: real, r31: real, r32: real, r33: real): Matrix4Real
  {
    Matrix4Real(Vector4Real(r00, r01, r02, r03), Vector4Real(r10, r11, r12, r13),
                Vector4Real(r20, r21, r22, r23), Vector4Real(r30, r31, r32, r33))
  }

  const COMPONENT_COUNT: nat := 16
  const IDENTITY: Matrix4Real := Of(1.0, 0.0, 0.0, 0.0, 0.0, 1.0, 0.0, 0.0, 0.0, 0.0, 1.0, 0.0, 0.0, 0.0, 0.0, 1.0)
  const ZERO: Matrix4Real := Of(0.0, 0.0, 0.0, 0.0, 0.0, 0.0, 0.0, 0.0, 0.0, 0.0, 0.0, 0.0, 0.0, 0.0, 0.0, 0.0)

  /** The explicit `Matrix4Real(Matrix3Real)` constructor: the 3x3 matrix in
      the top-left corner, a zero fourth column, and (0, 0, 0, 1) as fourth
      row. */
  function FromMatrix3(m3: Matrix3.Matrix3Real): Matrix4Real
  {
    Matrix4Real(Vector4Real(m3.R0.X, m3.R0.Y, m3.R0.Z, 0.0), Vector4Real(m3.R1.X, m3.R1.Y, m3.R1.Z, 0.0),
                Vector4Real(m3.R2.X, m3.R2.Y, m3.R2.Z, 0.0), Vector4Real(0.0, 0.0, 0.0, 1.0))
  }

  /** `ToArray`: the components in row-major order. */
  function ToArray(m: Matrix4Real): (a: seq<real>)
    ensures |a| == COMPONENT_COUNT
  {
    [m.R0.X, m.R0.Y, m.R0.Z, m.R0.W, m.R1.X, m.R1.Y, m.R1.Z, m.R1.W,
     m.R2.X, m.R2.Y, m.R2.Z, m.R2.W, m.R3.X, m.R3.Y, m.R3.Z, m.R3.W]
  }

  /** The array constructor. */
  function FromArray(a: seq<real>): Matrix4Real
    requires |a| == COMPONENT_COUNT
  {
    Of(a[0], a[1], a[2], a[3], a[4], a[5], a[6], a[7], a[8], a[9], a[10], a[11], a[12], a[13], a[14], a[15])
  }

  /** Flattening and the array constructor are inverse to each other. */
  lemma ArrayRoundTrip(m: Matrix4Real, a: seq<real>)
    ensures FromArray(ToArray(m)) == m
    ensures |a| == COMPONENT_COUNT ==> ToArray(FromArray(a)) == a
  {
  }

  /** Component `j` of a row, in the order X, Y, Z, W. */
  function Entry(v: Vector4Real, j: nat): real
    requires j < 4
  {
    if j == 0 then v.X else if j == 1 then v.Y else if j == 2 then v.Z else v.W
  }

  /** `operator[]`: the index must be below the component count, and the
      component read is the one at that place of the row-major flattening. */
  function At(m: Matrix4Real, index: nat): (x: real)
    requires index < COMPONENT_COUNT
    ensures x == ToArray(m)[index]
  {
    var row := if index < 4 then m.R0 else if index < 8 then m.R1 else if index < 12 then m.R2 else m.R3;
    Entry(row, index % 4)
  }

  /** Column `j` of the matrix, read top to bottom. */
  function Column(m: Matrix4Real, j: nat): Vector4Real
    requires j < 4
  {
    Vector4Real(Entry(m.R0, j), Entry(m.R1, j), Entry(m.R2, j), Entry(m.R3, j))
  }

  function WithEntry(v: Vector4Real, j: nat, x: real): (r: Vector4Real)
    requires j < 4
    ensures Entry(r, j) == x
    ensures forall k :: 0 <= k < 4 && k != j ==> Entry(r, k) == Entry(v, k)
  {
    if j == 0 then v.(X := x) else if j == 1 then v.(Y := x) else if j == 2 then v.(Z := x) else v.(W := x)
  }

  /** Writing a vector through a mutable column view. The matrix offers the
      views `C0()`, `C1()` and `C2()` only, so `j` is below 3; column `j`
      becomes the vector and every other column is left alone. */
  function WithColumn(m: Matrix4Real, j: nat, v: Vector4Real): (r: Matrix4Real)
    requires j < 3
    ensures Column(r, j) == v
    ensures forall k :: 0 <= k < 4 && k != j ==> Column(r, k) == Column(m, k)
  {
    Matrix4Real(WithEntry(m.R0, j, v.X), WithEntry(m.R1, j, v.Y), WithEntry(m.R2, j, v.Z), WithEntry(m.R3, j, v.W))
  }

  /** `Determinant`: expansion along row 0 with signs +, -, +, - over the
      3x3 minors of rows 1 to 3. */
  function Determinant(m: Matrix4Real): real
  {
    var R0, R1, R2, R3 := m.R0, m.R1, m.R2, m.R3;
    R0.X * Matrix3.Determinant(Matrix3.Of(R1.Y, R1.Z, R1.W, R2.Y, R2.Z, R2.W, R3.Y, R3.Z, R3.W))
    - R0.Y * Matrix3.Determinant(Matrix3.Of(R1.X, R1.Z, R1.W, R2.X, R2.Z, R2.W, R3.X, R3.Z, R3.W))
    + R0.Z * Matrix3.Determinant(Matrix3.Of(R1.X, R1.Y, R1.W, R2.X, R2.Y, R2.W, R3.X, R3.Y, R3.W))
    - R0.W * Matrix3.Determinant(Matrix3.Of(R1.X, R1.Y, R1.Z, R2.X, R2.Y, R2.Z, R3.X, R3.Y, R3.Z))
  }

  /** `GetTransposed` (and `Transpose`): the rows of the result are the
      columns of the matrix. */
  function Transposed(m: Matrix4Real): (t: Matrix4Real)
    ensures t.R0 == Column(m, 0) && t.R1 == Column(m, 1) && t.R2 == Column(m, 2) && t.R3 == Column(m, 3)
  {
    Of(m.R0.X, m.R1.X, m.R2.X, m.R3.X,
       m.R0.Y, m.R1.Y, m.R2.Y, m.R3.Y,
       m.R0.Z, m.R1.Z, m.R2.Z, m.R3.Z,
       m.R0.W, m.R1.W, m.R2.W, m.R3.W)
  }

  function Trace(m: Matrix4Real): real
  {
    m.R0.X + m.R1.Y + m.R2.Z + m.R3.W
  }

  /** `GetAdjoint`: the adjugate. Place (i, j) holds the cofactor of entry
      (j, i): the minor without row j and column i, negated when i + j is
      odd. */
  function Adjoint(m: Matrix4Real): Matrix4Real
  {
    var R0, R1, R2, R3 := m.R0, m.R1, m.R2, m.R3;
    Of(Matrix3.Determinant(Matrix3.Of(R1.Y, R1.Z, R1.W, R2.Y, R2.Z, R2.W, R3.Y, R3.Z, R3.W)),
       -Matrix3.Determinant(Matrix3.Of(R0.Y, R0.Z, R0.W, R2.Y, R2.Z, R2.W, R3.Y, R3.Z, R3.W)),
       Matrix3.Determinant(Matrix3.Of(R0.Y, R0.Z, R0.W, R1.Y, R1.Z, R1.W, R3.Y, R3.Z, R3.W)),
       -Matrix3.Determinant(Matrix3.Of(R0.Y, R0.Z, R0.W, R1.Y, R1.Z, R1.W, R2.Y, R2.Z, R2.W)),
       -Matrix3.Determinant(Matrix3.Of(R1.X, R1.Z, R1.W, R2.X, R2.Z, R2.W, R3.X, R3.Z, R3.W)),
       Matrix3.Determinant(Matrix3.Of(R0.X, R0.Z, R0.W, R2.X, R2.Z, R2.W, R3.X, R3.Z, R3.W)),
       -Matrix3.Determinant(Matrix3.Of(R0.X, R0.Z, R0.W, R1.X, R1.Z, R1.W, R3.X, R3.Z, R3.W)),
       Matrix3.Determinant(Matrix3.Of(R0.X, R0.Z, R0.W, R1.X, R1.Z, R1.W, R2.X, R2.Z, R2.W)),
       Matrix3.Determinant(Matrix3.Of(R1.X, R1.Y, R1.W, R2.X, R2.Y, R2.W, R3.X, R3.Y, R3.W)),
       -Matrix3.Determinant(Matrix3.Of(R0.X, R0.Y, R0.W, R2.X, R2.Y, R2.W, R3.X, R3.Y, R3.W)),
       Matrix3.Determinant(Matrix3.Of(R0.X, R0.Y, R0.W, R1.X, R1.Y, R1.W, R3.X, R3.Y, R3.W)),
       -Matrix3.Determinant(Matrix3.Of(R0.X, R0.Y, R0.W, R1.X, R1.Y, R1.W, R2.X, R2.Y, R2.W)),
       -Matrix3.Determinant(Matrix3.Of(R1.X, R1.Y, R1.Z, R2.X, R2.Y, R2.Z, R3.X, R3.Y, R3.Z)),
       Matrix3.Determinant(Matrix3.Of(R0.X, R0.Y, R0.Z, R2.X, R2.Y, R2.Z, R3.X, R3.Y, R3.Z)),
       -Matrix3.Determinant(Matrix3.Of(R0.X, R0.Y, R0.Z, R1.X, R1.Y, R1.Z, R3.X, R3.Y, R3.Z)),
       Matrix3.Determinant(Matrix3.Of(R0.X, R0.Y, R0.Z, R1.X, R1.Y, R1.Z, R2.X, R2.Y, R2.Z)))
  }

  function Add(a: Matrix4Real, b: Matrix4Real): Matrix4Real
  {
    Matrix4Real(Vector4.Add(a.R0, b.R0), Vector4.Add(a.R1, b.R1), Vector4.Add(a.R2, b.R2), Vector4.Add(a.R3, b.R3))
  }

  function Sub(a: Matrix4Real, b: Matrix4Real): Matrix4Real
  {
    Matrix4Real(Vector4.Sub(a.R0, b.R0), Vector4.Sub(a.R1, b.R1), Vector4.Sub(a.R2, b.R2), Vector4.Sub(a.R3, b.R3))
  }

  /** `matrix * scalar`, each row scaled. */
  function ScaleBy(m: Matrix4Real, s: real): Matrix4Real
  {
    Matrix4Real(Scale(m.R0, s), Scale(m.R1, s), Scale(m.R2, s), Scale(m.R3, s))
  }

  /** `scalar * matrix`: the same matrix as `matrix * scalar`. All four
      rows are scaled, so applied to any vector it gives what the unscaled
      matrix gives on that vector scaled. */
  function ScaleLeft(s: real, m: Matrix4Real): (r: Matrix4Real)
    ensures r == ScaleBy(m, s)
    ensures forall v :: MulVec(r, v) == MulVec(m, Scale(v, s))
  {
    assert forall v :: MulVec(ScaleBy(m, s), v) == MulVec(m, Scale(v, s)) by {
      forall v ensures MulVec(ScaleBy(m, s), v) == MulVec(m, Scale(v, s)) {
        RowScaled(m.R0, v, s);
        RowScaled(m.R1, v, s);
        RowScaled(m.R2, v, s);
        RowScaled(m.R3, v, s);
      }
    }
    Matrix4Real(Scale(m.R0, s), Scale(m.R1, s), Scale(m.R2, s), Scale(m.R3, s))
  }

  /** Scaling either side of a dot product by `s` scales it by `s`. */
  lemma RowScaled(row: Vector4Real, v: Vector4Real, s: real)
    ensures Dot(Scale(row, s), v) == Dot(row, v) * s
    ensures Dot(row, Scale(v, s)) == Dot(row, v) * s
  {
    DotCommutes(Scale(row, s), v);
    DotScaled(v, row, s);
    DotCommutes(v, row);
  }

  /** Row `i` of a product: that row of the left matrix dotted with each
      column of the right one. */
  function ProductRow(a: Vector4Real, b: Matrix4Real): Vector4Real
  {
    Vector4Real(Dot(a, Column(b, 0)), Dot(a, Column(b, 1)), Dot(a, Column(b, 2)), Dot(a, Column(b, 3)))
  }

  /** `matrix * matrix`: entry (i, j) is row i of the left matrix dotted with
      column j of the right one. */
  function Mul(a: Matrix4Real, b: Matrix4Real): Matrix4Real
  {
    Matrix4Real(ProductRow(a.R0, b), ProductRow(a.R1, b), ProductRow(a.R2, b), ProductRow(a.R3, b))
  }

  /** `matrix * vector`: each row dotted with the vector. */
  function MulVec(m: Matrix4Real, v: Vector4Real): Vector4Real
  {
    Vector4Real(Dot(m.R0, v), Dot(m.R1, v), Dot(m.R2, v), Dot(m.R3, v))
  }

  /** `vector * matrix` as written: it dots the vector with the rows, so it
      is the same product as `matrix * vector`. It agrees with the
      row-vector product, the vector dotted with the columns, only when the
      matrix is symmetric (see `VecMulAdjoint`). */
  function VecMul(v: Vector4Real, m: Matrix4Real): (r: Vector4Real)
    ensures r == MulVec(m, v)
    ensures IsSymmetric(m) ==> r == MulVec(Transposed(m), v)
  {
    DotCommutes(m.R0, v);
    DotCommutes(m.R1, v);
    DotCommutes(m.R2, v);
    DotCommutes(m.R3, v);
    Vector4Real(v.X * m.R0.X + v.Y * m.R0.Y + v.Z * m.R0.Z + v.W * m.R0.W,
                v.X * m.R1.X + v.Y * m.R1.Y + v.Z * m.R1.Z + v.W * m.R1.W,
                v.X * m.R2.X + v.Y * m.R2.Y + v.Z * m.R2.Z + v.W * m.R2.W,
                v.X * m.R3.X + v.Y * m.R3.Y + v.Z * m.R3.Z + v.W * m.R3.W)
  }

  /** Dotted with any vector `w`, `v * m` as written gives `v` dotted with
      the transpose of `m` times `w`. A row-vector product would give `v`
      dotted with `m` times `w`. */
  lemma VecMulAdjoint(v: Vector4Real, m: Matrix4Real, w: Vector4Real)
    ensures Dot(VecMul(v, m), w) == Dot(v, MulVec(Transposed(m), w))
  {
    assert VecMul(v, m) == Vector4Real(v.X * m.R0.X + v.Y * m.R0.Y + v.Z * m.R0.Z + v.W * m.R0.W,
                                       v.X * m.R1.X + v.Y * m.R1.Y + v.Z * m.R1.Z + v.W * m.R1.W,
                                       v.X * m.R2.X + v.Y * m.R2.Y + v.Z * m.R2.Z + v.W * m.R2.W,
                                       v.X * m.R3.X + v.Y * m.R3.Y + v.Z * m.R3.Z + v.W * m.R3.W);
    assert MulVec(Transposed(m), w) == Vector4Real(m.R0.X * w.X + m.R1.X * w.Y + m.R2.X * w.Z + m.R3.X * w.W,
                                                   m.R0.Y * w.X + m.R1.Y * w.Y + m.R2.Y * w.Z + m.R3.Y * w.W,
                                                   m.R0.Z * w.X + m.R1.Z * w.Y + m.R2.Z * w.Z + m.R3.Z * w.W,
                                                   m.R0.W * w.X + m.R1.W * w.Y + m.R2.W * w.Z + m.R3.W * w.W);
    AdjointSum(v.X, v.Y, v.Z, v.W, m.R0.X, m.R0.Y, m.R0.Z, m.R0.W, m.R1.X, m.R1.Y, m.R1.Z, m.R1.W, m.R2.X, m.R2.Y, m.R2.Z, m.R2.W, m.R3.X, m.R3.Y, m.R3.Z, m.R3.W, w.X, w.Y, w.Z, w.W);
  }

  /** `VecMulAdjoint` over the entries: both sides are the sum of the
      products `v_j m_ij w_i`. */
  lemma AdjointSum(v0: real, v1: real, v2: real, v3: real, m00: real, m01: real, m02: real, m03: real, m10: real, m11: real, m12: real, m13: real, m20: real, m21: real, m22: real, m23: real, m30: real, m31: real, m32: real, m33: real, w0: real, w1: real, w2: real, w3: real)
    ensures (v0 * m00 + v1 * m01 + v2 * m02 + v3 * m03) * w0 + (v0 * m10 + v1 * m11 + v2 * m12 + v3 * m13) * w1 + (v0 * m20 + v1 * m21 + v2 * m22 + v3 * m23) * w2 + (v0 * m30 + v1 * m31 + v2 * m32 + v3 * m33) * w3
         == v0 * (m00 * w0 + m10 * w1 + m20 * w2 + m30 * w3) + v1 * (m01 * w0 + m11 * w1 + m21 * w2 + m31 * w3) + v2 * (m02 * w0 + m12 * w1 + m22 * w2 + m32 * w3) + v3 * (m03 * w0 + m13 * w1 + m23 * w2 + m33 * w3)
  {
  }

  /** `GetInverted` (and `Inverse`) as the library writes it: the matrix
      itself when its determinant is within the tolerance of zero;
      otherwise the transposed adjugate with every row scaled by the
      reciprocal of the determinant. Since the adjugate is transposed once
      too often, the result is the transpose of the inverse: it is its
      transpose that inverts the matrix. */
  function InvertedAsWritten(m: Matrix4Real, tolerance: Tolerance): (r: Matrix4Real)
    ensures Scalar.IsNearlyEqual(Determinant(m), 0.0, tolerance) ==> r == m
    ensures !Scalar.IsNearlyEqual(Determinant(m), 0.0, tolerance) ==>
      Mul(m, Transposed(r)) == IDENTITY && Transposed(r) == Inverted(m, tolerance)
  {
    var determinant := Determinant(m);
    if Scalar.IsNearlyEqual(determinant, 0.0, tolerance) then m
    else
      NotNearlyZero(determinant, tolerance);
      var invDeterminant := Reciprocal(determinant);
      ScaledTransposed(Adjoint(m), invDeterminant);
      assert Inverted(m, tolerance) == ScaleBy(Adjoint(m), invDeterminant);
      ScaleBy(Transposed(Adjoint(m)), invDeterminant)
  }

  /** `GetInverted` with the adjugate used as it is: the matrix itself when
      its determinant is within the tolerance of zero, otherwise the
      adjugate scaled by the reciprocal of the determinant, a right
      inverse. */
  function Inverted(m: Matrix4Real, tolerance: Tolerance): (r: Matrix4Real)
    ensures Scalar.IsNearlyEqual(Determinant(m), 0.0, tolerance) ==> r == m
    ensures !Scalar.IsNearlyEqual(Determinant(m), 0.0, tolerance) ==> Mul(m, r) == IDENTITY
  {
    var determinant := Determinant(m);
    if Scalar.IsNearlyEqual(determinant, 0.0, tolerance) then m
    else
      NotNearlyZero(determinant, tolerance);
      RightInverse(m);
      ScaleBy(Adjoint(m), Reciprocal(determinant))
  }

  /** Away from the singular case the result as written is the transpose
      of the inverse. */
  lemma InvertedAsWrittenIsTransposed(m: Matrix4Real, tolerance: Tolerance)
    requires !Scalar.IsNearlyEqual(Determinant(m), 0.0, tolerance)
    ensures InvertedAsWritten(m, tolerance) == Transposed(Inverted(m, tolerance))
  {
    TransposeFacts(InvertedAsWritten(m, tolerance));
  }

  /** A shear with determinant 1 whose inverse is not symmetric shows the
      difference: for every tolerance below 1 the result as written is the
      transpose of its inverse, and it does not invert the shear. */
  lemma InvertedAsWrittenIsNotAnInverse(shear: Matrix4Real, tolerance: Tolerance)
    requires IsShear(shear) && tolerance < 1.0
    ensures Determinant(shear) == 1.0
    ensures Inverted(shear, tolerance) == Of(1.0, -1.0, 0.0, 0.0, 0.0, 1.0, 0.0, 0.0, 0.0, 0.0, 1.0, 0.0, 0.0, 0.0, 0.0, 1.0)
    ensures InvertedAsWritten(shear, tolerance) == Of(1.0, 0.0, 0.0, 0.0, -1.0, 1.0, 0.0, 0.0, 0.0, 0.0, 1.0, 0.0, 0.0, 0.0, 0.0, 1.0)
    ensures Mul(shear, InvertedAsWritten(shear, tolerance)) != IDENTITY
  {
    ShearDeterminant(shear);
    ShearInverted(shear, tolerance);
    ShearInvertedAsWritten(shear, tolerance);
    ShearNotInverted(shear, InvertedAsWritten(shear, tolerance));
  }

  /** The shear that adds the second coordinate to the first, given by its
      rows. */
  predicate IsShear(m: Matrix4Real)
  {
    && m.R0 == Vector4Real(1.0, 1.0, 0.0, 0.0) && m.R1 == Vector4Real(0.0, 1.0, 0.0, 0.0)
    && m.R2 == Vector4Real(0.0, 0.0, 1.0, 0.0) && m.R3 == Vector4Real(0.0, 0.0, 0.0, 1.0)
  }

  /** The shear embeds a 2x2 shear, whose determinant is 1. */
  lemma ShearDeterminant(shear: Matrix4Real)
    requires IsShear(shear)
    ensures Determinant(shear) == 1.0
  {
    var m2 := Matrix2.Of(shear.R0.X, shear.R0.Y, shear.R1.X, shear.R1.Y);
    assert shear == FromMatrix3(Matrix3.FromMatrix2(m2));
    DeterminantEmbedded(Matrix3.FromMatrix2(m2));
    Matrix3.DeterminantEmbedded(m2);
  }

  /** The shear has exactly one right inverse, which subtracts the second
      coordinate from the first. */
  lemma ShearRightInverse(shear: Matrix4Real, x: Matrix4Real)
    requires IsShear(shear) && Mul(shear, x) == IDENTITY
    ensures x == Of(1.0, -1.0, 0.0, 0.0, 0.0, 1.0, 0.0, 0.0, 0.0, 0.0, 1.0, 0.0, 0.0, 0.0, 0.0, 1.0)
  {
    assert ProductRow(shear.R0, x) == IDENTITY.R0 && ProductRow(shear.R1, x) == IDENTITY.R1;
    assert ProductRow(shear.R2, x) == IDENTITY.R2 && ProductRow(shear.R3, x) == IDENTITY.R3;
    UnitProductRows(x);
    ShearFirstRow(x);
  }

  /** A unit row picks the matching row of the right operand. */
  lemma UnitProductRows(x: Matrix4Real)
    ensures ProductRow(Vector4Real(0.0, 1.0, 0.0, 0.0), x) == x.R1
    ensures ProductRow(Vector4Real(0.0, 0.0, 1.0, 0.0), x) == x.R2
    ensures ProductRow(Vector4Real(0.0, 0.0, 0.0, 1.0), x) == x.R3
  {
  }

  lemma ShearFirstRow(x: Matrix4Real)
    requires ProductRow(Vector4Real(1.0, 1.0, 0.0, 0.0), x) == Vector4Real(1.0, 0.0, 0.0, 0.0)
    requires x.R1 == Vector4Real(0.0, 1.0, 0.0, 0.0)
    ensures x.R0 == Vector4Real(1.0, -1.0, 0.0, 0.0)
  {
  }

  /** The corrected inverse of the shear is its unique right inverse. */
  lemma ShearInverted(shear: Matrix4Real, tolerance: Tolerance)
    requires IsShear(shear) && Determinant(shear) == 1.0 && tolerance < 1.0
    ensures Inverted(shear, tolerance) == Of(1.0, -1.0, 0.0, 0.0, 0.0, 1.0, 0.0, 0.0, 0.0, 0.0, 1.0, 0.0, 0.0, 0.0, 0.0, 1.0)
  {
    ShearRightInverse(shear, Inverted(shear, tolerance));
  }

  /** The result as written for the shear is the transpose of that
      inverse. */
  lemma ShearInvertedAsWritten(shear: Matrix4Real, tolerance: Tolerance)
    requires IsShear(shear) && Determinant(shear) == 1.0 && tolerance < 1.0
    ensures InvertedAsWritten(shear, tolerance) == Of(1.0, 0.0, 0.0, 0.0, -1.0, 1.0, 0.0, 0.0, 0.0, 0.0, 1.0, 0.0, 0.0, 0.0, 0.0, 1.0)
  {
    ShearInverted(shear, tolerance);
    InvertedAsWrittenIsTransposed(shear, tolerance);
    ShearInverseTransposed();
  }

  /** A matrix whose first row is (1, 0, 0, 0), as in the transpose of the
      shear's inverse, is not a right inverse of the shear. */
  lemma ShearNotInverted(shear: Matrix4Real, x: Matrix4Real)
    requires IsShear(shear) && x.R0 == Vector4Real(1.0, 0.0, 0.0, 0.0)
    ensures Mul(shear, x) != IDENTITY
  {
    if Mul(shear, x) == IDENTITY {
      ShearRightInverse(shear, x);
    }
  }

  lemma ShearInverseTransposed()
    ensures Transposed(Of(1.0, -1.0, 0.0, 0.0, 0.0, 1.0, 0.0, 0.0, 0.0, 0.0, 1.0, 0.0, 0.0, 0.0, 0.0, 1.0)) == Of(1.0, 0.0, 0.0, 0.0, -1.0, 1.0, 0.0, 0.0, 0.0, 0.0, 1.0, 0.0, 0.0, 0.0, 0.0, 1.0)
  {
  }

  /** The adjugate times a reciprocal of the determinant is a right inverse. */
  lemma RightInverse(m: Matrix4Real)
    requires Determinant(m) != 0.0
    ensures Mul(m, ScaleBy(Adjoint(m), Reciprocal(Determinant(m)))) == IDENTITY
  {
    AdjugateProduct(m);
    ScaledProductInverse(m, Adjoint(m), Determinant(m));
  }

  /** A product equal to `d` times the identity becomes the identity once
      the right operand is scaled by a reciprocal of a non-zero `d`. */
  lemma ScaledProductInverse(m: Matrix4Real, n: Matrix4Real, d: real)
    requires d != 0.0 && Mul(m, n) == ScaleBy(IDENTITY, d)
    ensures Mul(m, ScaleBy(n, Reciprocal(d))) == IDENTITY
  {
    assert RowDots(m.R0, n, 0, d) && RowDots(m.R1, n, 1, d) && RowDots(m.R2, n, 2, d) && RowDots(m.R3, n, 3, d);
    ScaledRightInverse(m, n, d, Reciprocal(d));
  }

  /** The matrix times its adjugate is the determinant times the identity. */
  lemma AdjugateProduct(m: Matrix4Real)
    ensures Mul(m, Adjoint(m)) == ScaleBy(IDENTITY, Determinant(m))
  {
    AdjointDots(m);
    DotsGiveScaledIdentity(m, Adjoint(m), Determinant(m));
  }

  /** Row `a` dotted with the columns of `n` gives `d` at column `k` and zero
      at the others. */
  predicate RowDots(a: Vector4Real, n: Matrix4Real, k: nat, d: real)
  {
    && Dot(a, Column(n, 0)) == (if k == 0 then d else 0.0)
    && Dot(a, Column(n, 1)) == (if k == 1 then d else 0.0)
    && Dot(a, Column(n, 2)) == (if k == 2 then d else 0.0)
    && Dot(a, Column(n, 3)) == (if k == 3 then d else 0.0)
  }

  /** When row i of `m` dotted with column j of `n` is `d` on the diagonal
      and zero off it, the product is `d` times the identity. */
  lemma DotsGiveScaledIdentity(m: Matrix4Real, n: Matrix4Real, d: real)
    requires RowDots(m.R0, n, 0, d) && RowDots(m.R1, n, 1, d) && RowDots(m.R2, n, 2, d) && RowDots(m.R3, n, 3, d)
    ensures Mul(m, n) == ScaleBy(IDENTITY, d)
  {
  }

  /** Each row dotted with each column of the adjugate: the determinant on
      the diagonal, zero off it. */
  lemma AdjointDots(m: Matrix4Real)
    ensures var adj, d := Adjoint(m), Determinant(m);
      RowDots(m.R0, adj, 0, d) && RowDots(m.R1, adj, 1, d) && RowDots(m.R2, adj, 2, d) && RowDots(m.R3, adj, 3, d)
  {
    AdjointColumn0Dots(m);
    AdjointColumn1Dots(m);
    AdjointColumn2Dots(m);
    AdjointColumn3Dots(m);
  }

  /** If the rows of `m` dotted with the columns of `n` give `d` times the
      identity, scaling `n` by a reciprocal of `d` gives a right inverse. */
  lemma ScaledRightInverse(m: Matrix4Real, n: Matrix4Real, d: real, inv: real)
    requires d * inv == 1.0
    requires RowDots(m.R0, n, 0, d) && RowDots(m.R1, n, 1, d) && RowDots(m.R2, n, 2, d) && RowDots(m.R3, n, 3, d)
    ensures Mul(m, ScaleBy(n, inv)) == IDENTITY
  {
    ScaledRowDots(m.R0, n, 0, d, inv);
    ScaledRowDots(m.R1, n, 1, d, inv);
    ScaledRowDots(m.R2, n, 2, d, inv);
    ScaledRowDots(m.R3, n, 3, d, inv);
    DotsGiveScaledIdentity(m, ScaleBy(n, inv), 1.0);
  }

  /** Scaling the right operand by a reciprocal of `d` turns `d` into one. */
  lemma ScaledRowDots(a: Vector4Real, n: Matrix4Real, k: nat, d: real, inv: real)
    requires d * inv == 1.0 && RowDots(a, n, k, d)
    ensures RowDots(a, ScaleBy(n, inv), k, 1.0)
  {
    ScaledDot(a, n, 0, d, inv, k == 0);
    ScaledDot(a, n, 1, d, inv, k == 1);
    ScaledDot(a, n, 2, d, inv, k == 2);
    ScaledDot(a, n, 3, d, inv, k == 3);
  }

  lemma ScaledDot(a: Vector4Real, n: Matrix4Real, j: nat, d: real, inv: real, isD: bool)
    requires j < 4 && d * inv == 1.0 && Dot(a, Column(n, j)) == (if isD then d else 0.0)
    ensures Dot(a, Column(ScaleBy(n, inv), j)) == (if isD then 1.0 else 0.0)
  {
    ScaledColumn(n, inv, j);
    DotScaled(a, Column(n, j), inv);
    ReciprocalScaled(Dot(a, Column(n, j)), d, inv, isD);
  }

  lemma ScaledColumn(n: Matrix4Real, s: real, j: nat)
    requires j < 4
    ensures Column(ScaleBy(n, s), j) == Scale(Column(n, j), s)
  {
    ScaledEntry(n.R0, s, j);
    ScaledEntry(n.R1, s, j);
    ScaledEntry(n.R2, s, j);
    ScaledEntry(n.R3, s, j);
    assert Column(ScaleBy(n, s), j)
      == Vector4Real(Entry(Scale(n.R0, s), j), Entry(Scale(n.R1, s), j), Entry(Scale(n.R2, s), j), Entry(Scale(n.R3, s), j));
  }

  lemma ScaledEntry(v: Vector4Real, s: real, j: nat)
    requires j < 4
    ensures Entry(Scale(v, s), j) == Entry(v, j) * s
  {
  }

  /** Scaling commutes with transposition. */
  lemma ScaledTransposed(n: Matrix4Real, s: real)
    ensures ScaleBy(Transposed(n), s) == Transposed(ScaleBy(n, s))
    ensures Transposed(ScaleBy(Transposed(n), s)) == ScaleBy(n, s)
  {
    ScaledColumn(n, s, 0);
    ScaledColumn(n, s, 1);
    ScaledColumn(n, s, 2);
    ScaledColumn(n, s, 3);
    TransposeFacts(ScaleBy(n, s));
  }

  // The cofactor algebra behind the adjugate.

  /** The cofactors of the row left out when `a`, `b` and `c` are the other
      three rows, in order: component k is the 3x3 minor of `a`, `b`, `c`
      without column k, negated for odd k. A fourth row dotted with them is
      the determinant of the matrix with rows x, a, b, c. */
  function Cofactors(a: Vector4Real, b: Vector4Real, c: Vector4Real): Vector4Real
  {
    Vector4Real(Matrix3.Determinant(Matrix3.Of(a.Y, a.Z, a.W, b.Y, b.Z, b.W, c.Y, c.Z, c.W)),
                -Matrix3.Determinant(Matrix3.Of(a.X, a.Z, a.W, b.X, b.Z, b.W, c.X, c.Z, c.W)),
                Matrix3.Determinant(Matrix3.Of(a.X, a.Y, a.W, b.X, b.Y, b.W, c.X, c.Y, c.W)),
                -Matrix3.Determinant(Matrix3.Of(a.X, a.Y, a.Z, b.X, b.Y, b.Z, c.X, c.Y, c.Z)))
  }

  /** The determinant is row 0 dotted with the cofactors of rows 1 to 3. */
  lemma DeterminantIsDot(m: Matrix4Real)
    ensures Determinant(m) == Dot(m.R0, Cofactors(m.R1, m.R2, m.R3))
  {
  }

  /** Each column of the adjugate is the cofactor vector of one row: column
      j holds the cofactors of row j, computed from the other three rows. */
  lemma AdjointColumns(m: Matrix4Real)
    ensures Column(Adjoint(m), 0) == Cofactors(m.R1, m.R2, m.R3)
    ensures Column(Adjoint(m), 1) == Neg(Cofactors(m.R0, m.R2, m.R3))
    ensures Column(Adjoint(m), 2) == Cofactors(m.R0, m.R1, m.R3)
    ensures Column(Adjoint(m), 3) == Neg(Cofactors(m.R0, m.R1, m.R2))
  {
    AdjointColumn(m, 0);
    AdjointColumn(m, 1);
    AdjointColumn(m, 2);
    AdjointColumn(m, 3);
  }

  lemma AdjointColumn(m: Matrix4Real, j: nat)
    requires j < 4
    ensures j == 0 ==> Column(Adjoint(m), 0) == Cofactors(m.R1, m.R2, m.R3)
    ensures j == 1 ==> Column(Adjoint(m), 1) == Neg(Cofactors(m.R0, m.R2, m.R3))
    ensures j == 2 ==> Column(Adjoint(m), 2) == Cofactors(m.R0, m.R1, m.R3)
    ensures j == 3 ==> Column(Adjoint(m), 3) == Neg(Cofactors(m.R0, m.R1, m.R2))
  {
  }

  /** The 2x2 minors of rows `b` and `c`, one per pair of columns. */
  datatype Minors = Minors(p01: real, p02: real, p03: real, p12: real, p13: real, p23: real)

  function MinorsOf(b: Vector4Real, c: Vector4Real): Minors
  {
    Minors(Matrix2.Determinant(Matrix2.Of(b.X, b.Y, c.X, c.Y)), Matrix2.Determinant(Matrix2.Of(b.X, b.Z, c.X, c.Z)),
           Matrix2.Determinant(Matrix2.Of(b.X, b.W, c.X, c.W)), Matrix2.Determinant(Matrix2.Of(b.Y, b.Z, c.Y, c.Z)),
           Matrix2.Determinant(Matrix2.Of(b.Y, b.W, c.Y, c.W)), Matrix2.Determinant(Matrix2.Of(b.Z, b.W, c.Z, c.W)))
  }

  /** Each cofactor, expanded along its first row `a` over the 2x2 minors
      of `b` and `c`. */
  predicate ExpandsTo(k: Vector4Real, a: Vector4Real, p: Minors)
  {
    && k.X == a.Y * p.p23 - a.Z * p.p13 + a.W * p.p12
    && k.Y == -(a.X * p.p23 - a.Z * p.p03 + a.W * p.p02)
    && k.Z == a.X * p.p13 - a.Y * p.p03 + a.W * p.p01
    && k.W == -(a.X * p.p12 - a.Y * p.p02 + a.Z * p.p01)
  }

  lemma CofactorsExpand(a: Vector4Real, b: Vector4Real, c: Vector4Real)
    ensures ExpandsTo(Cofactors(a, b, c), a, MinorsOf(b, c))
  {
    CofactorExpandsX(a, b, c);
    CofactorExpandsY(a, b, c);
    CofactorExpandsZ(a, b, c);
    CofactorExpandsW(a, b, c);
  }

  lemma CofactorExpandsX(a: Vector4Real, b: Vector4Real, c: Vector4Real)
    ensures var p := MinorsOf(b, c); Cofactors(a, b, c).X == a.Y * p.p23 - a.Z * p.p13 + a.W * p.p12
  {
  }

  lemma CofactorExpandsY(a: Vector4Real, b: Vector4Real, c: Vector4Real)
    ensures var p := MinorsOf(b, c); Cofactors(a, b, c).Y == -(a.X * p.p23 - a.Z * p.p03 + a.W * p.p02)
  {
  }

  lemma CofactorExpandsZ(a: Vector4Real, b: Vector4Real, c: Vector4Real)
    ensures var p := MinorsOf(b, c); Cofactors(a, b, c).Z == a.X * p.p13 - a.Y * p.p03 + a.W * p.p01
  {
  }

  lemma CofactorExpandsW(a: Vector4Real, b: Vector4Real, c: Vector4Real)
    ensures var p := MinorsOf(b, c); Cofactors(a, b, c).W == -(a.X * p.p12 - a.Y * p.p02 + a.Z * p.p01)
  {
  }

  /** Over the expanded cofactors, exchanging the first two rows of a 4x4
      determinant negates it: both sides are the same sum of the products
      x_k a_l p_kl, with opposite signs. */
  lemma ExpansionAntisymmetric(x: Vector4Real, a: Vector4Real, p: Minors, ka: Vector4Real, kx: Vector4Real)
    requires ExpandsTo(ka, a, p) && ExpandsTo(kx, x, p)
    ensures Dot(x, ka) == -Dot(a, kx)
  {
    var sum := x.X * a.Y * p.p23 - x.X * a.Z * p.p13 + x.X * a.W * p.p12
             - x.Y * a.X * p.p23 + x.Y * a.Z * p.p03 - x.Y * a.W * p.p02
             + x.Z * a.X * p.p13 - x.Z * a.Y * p.p03 + x.Z * a.W * p.p01
             - x.W * a.X * p.p12 + x.W * a.Y * p.p02 - x.W * a.Z * p.p01;
    assert Dot(x, ka) == sum;
    assert Dot(a, kx) == -sum;
  }

  /** The determinant with rows x, a, b, c is the negation of the one with
      rows a, x, b, c. */
  lemma FirstTwoAntisymmetric(x: Vector4Real, a: Vector4Real, b: Vector4Real, c: Vector4Real)
    ensures Dot(x, Cofactors(a, b, c)) == -Dot(a, Cofactors(x, b, c))
  {
    CofactorsExpand(a, b, c);
    CofactorsExpand(x, b, c);
    ExpansionAntisymmetric(x, a, MinorsOf(b, c), Cofactors(a, b, c), Cofactors(x, b, c));
  }

  /** Exchanging two of the three rows negates every cofactor. */
  lemma CofactorsSwap(a: Vector4Real, b: Vector4Real, c: Vector4Real)
    ensures Cofactors(b, a, c) == Neg(Cofactors(a, b, c))
    ensures Cofactors(a, c, b) == Neg(Cofactors(a, b, c))
  {
    Matrix3.SwapRows(Matrix3.Of(a.Y, a.Z, a.W, b.Y, b.Z, b.W, c.Y, c.Z, c.W));
    Matrix3.SwapRows(Matrix3.Of(a.X, a.Z, a.W, b.X, b.Z, b.W, c.X, c.Z, c.W));
    Matrix3.SwapRows(Matrix3.Of(a.X, a.Y, a.W, b.X, b.Y, b.W, c.X, c.Y, c.W));
    Matrix3.SwapRows(Matrix3.Of(a.X, a.Y, a.Z, b.X, b.Y, b.Z, c.X, c.Y, c.Z));
  }

  /** A determinant with a repeated row is zero: a row dotted with cofactors
      computed from itself and two other rows vanishes, wherever it sits. */
  lemma RepeatedRow(x: Vector4Real, a: Vector4Real, b: Vector4Real)
    ensures Dot(x, Cofactors(x, a, b)) == 0.0
    ensures Dot(x, Cofactors(a, x, b)) == 0.0
    ensures Dot(x, Cofactors(a, b, x)) == 0.0
  {
    FirstTwoAntisymmetric(x, x, a, b);
    CofactorsSwap(x, a, b);
    DotScaled(x, Cofactors(x, a, b), 1.0);
    CofactorsSwap(a, x, b);
    DotScaled(x, Cofactors(a, x, b), 1.0);
  }

  lemma AdjointColumn0Dots(m: Matrix4Real)
    ensures var c, d := Column(Adjoint(m), 0), Determinant(m);
      Dot(m.R0, c) == d && Dot(m.R1, c) == 0.0 && Dot(m.R2, c) == 0.0 && Dot(m.R3, c) == 0.0
  {
    AdjointColumn(m, 0);
    DeterminantIsDot(m);
    RepeatedRow(m.R1, m.R2, m.R3);
    RepeatedRow(m.R2, m.R1, m.R3);
    RepeatedRow(m.R3, m.R1, m.R2);
  }

  lemma AdjointColumn1Dots(m: Matrix4Real)
    ensures var c, d := Column(Adjoint(m), 1), Determinant(m);
      Dot(m.R0, c) == 0.0 && Dot(m.R1, c) == d && Dot(m.R2, c) == 0.0 && Dot(m.R3, c) == 0.0
  {
    var k := Cofactors(m.R0, m.R2, m.R3);
    AdjointColumn(m, 1);
    DeterminantIsDot(m);
    FirstTwoAntisymmetric(m.R1, m.R0, m.R2, m.R3);
    RepeatedRow(m.R0, m.R2, m.R3);
    RepeatedRow(m.R2, m.R0, m.R3);
    RepeatedRow(m.R3, m.R0, m.R2);
    DotScaled(m.R0, k, 1.0);
    DotScaled(m.R1, k, 1.0);
    DotScaled(m.R2, k, 1.0);
    DotScaled(m.R3, k, 1.0);
  }

  lemma AdjointColumn2Dots(m: Matrix4Real)
    ensures var c, d := Column(Adjoint(m), 2), Determinant(m);
      Dot(m.R0, c) == 0.0 && Dot(m.R1, c) == 0.0 && Dot(m.R2, c) == d && Dot(m.R3, c) == 0.0
  {
    AdjointColumn(m, 2);
    DeterminantIsDot(m);
    FirstTwoAntisymmetric(m.R2, m.R0, m.R1, m.R3);
    CofactorsSwap(m.R1, m.R2, m.R3);
    DotScaled(m.R0, Cofactors(m.R1, m.R2, m.R3), 1.0);
    RepeatedRow(m.R0, m.R1, m.R3);
    RepeatedRow(m.R1, m.R0, m.R3);
    RepeatedRow(m.R3, m.R0, m.R1);
  }

  lemma AdjointColumn3Dots(m: Matrix4Real)
    ensures var c, d := Column(Adjoint(m), 3), Determinant(m);
      Dot(m.R0, c) == 0.0 && Dot(m.R1, c) == 0.0 && Dot(m.R2, c) == 0.0 && Dot(m.R3, c) == d
  {
    var k := Cofactors(m.R0, m.R1, m.R2);
    AdjointColumn(m, 3);
    DeterminantIsDot(m);
    FirstTwoAntisymmetric(m.R3, m.R0, m.R1, m.R2);
    CofactorsSwap(m.R1, m.R3, m.R2);
    CofactorsSwap(m.R1, m.R2, m.R3);
    DotScaled(m.R0, Cofactors(m.R1, m.R3, m.R2), 1.0);
    DotScaled(m.R0, Cofactors(m.R1, m.R2, m.R3), 1.0);
    RepeatedRow(m.R0, m.R1, m.R2);
    RepeatedRow(m.R1, m.R0, m.R2);
    RepeatedRow(m.R2, m.R0, m.R1);
    DotScaled(m.R0, k, 1.0);
    DotScaled(m.R1, k, 1.0);
    DotScaled(m.R2, k, 1.0);
    DotScaled(m.R3, k, 1.0);
  }

  /** The identity has determinant one: it embeds the 3x3 identity. */
  lemma DeterminantOfIdentity()
    ensures Determinant(IDENTITY) == 1.0
  {
    UnitRowsDeterminant(IDENTITY);
  }

  /** A matrix whose rows are the unit vectors in order has determinant one. */
  lemma UnitRowsDeterminant(m: Matrix4Real)
    requires m.R0 == Vector4Real(1.0, 0.0, 0.0, 0.0) && m.R1 == Vector4Real(0.0, 1.0, 0.0, 0.0)
    requires m.R2 == Vector4Real(0.0, 0.0, 1.0, 0.0) && m.R3 == Vector4Real(0.0, 0.0, 0.0, 1.0)
    ensures Determinant(m) == 1.0
  {
    var m3 := Matrix3.Of(m.R0.X, m.R0.Y, m.R0.Z, m.R1.X, m.R1.Y, m.R1.Z, m.R2.X, m.R2.Y, m.R2.Z);
    assert m == FromMatrix3(m3);
    DeterminantEmbedded(m3);
    Matrix3.DeterminantConstants();
    assert m3 == Matrix3.IDENTITY;
  }

  lemma DeterminantOfZero()
    ensures Determinant(ZERO) == 0.0
  {
    ZeroRowDeterminant(ZERO);
  }

  /** A zero first row gives a zero determinant. */
  lemma ZeroRowDeterminant(m: Matrix4Real)
    requires m.R0 == Vector4.ZERO
    ensures Determinant(m) == 0.0
  {
    DeterminantIsDot(m);
  }

  /** Embedding a 3x3 matrix keeps its determinant: each minor taken with
      the added row and column is the embedding of a 2x2 minor. */
  lemma DeterminantEmbedded(m3: Matrix3.Matrix3Real)
    ensures Determinant(FromMatrix3(m3)) == Matrix3.Determinant(m3)
  {
    Matrix3.DeterminantEmbedded(Matrix2.Of(m3.R1.Y, m3.R1.Z, m3.R2.Y, m3.R2.Z));
    Matrix3.DeterminantEmbedded(Matrix2.Of(m3.R1.X, m3.R1.Z, m3.R2.X, m3.R2.Z));
    Matrix3.DeterminantEmbedded(Matrix2.Of(m3.R1.X, m3.R1.Y, m3.R2.X, m3.R2.Y));
  }

  /** Transposing twice gives the matrix back and keeps the trace. */
  lemma TransposeFacts(m: Matrix4Real)
    ensures Transposed(Transposed(m)) == m
    ensures Trace(Transposed(m)) == Trace(m)
  {
  }

  /** `IDENTITY` is a two-sided unit of the product and fixes every vector. */
  lemma IdentityUnit(m: Matrix4Real, v: Vector4Real)
    ensures Mul(IDENTITY, m) == m && Mul(m, IDENTITY) == m
    ensures MulVec(IDENTITY, v) == v
  {
  }

  /** `IsNearlyEqual`: every row within the tolerance. */
  predicate IsNearlyEqual(a: Matrix4Real, b: Matrix4Real, tolerance: Tolerance)
  {
    && Vector4.IsNearlyEqual(a.R0, b.R0, tolerance) && Vector4.IsNearlyEqual(a.R1, b.R1, tolerance)
    && Vector4.IsNearlyEqual(a.R2, b.R2, tolerance) && Vector4.IsNearlyEqual(a.R3, b.R3, tolerance)
  }

  /** `IsEqual`: every row equal component by component. */
  function IsEqual(a: Matrix4Real, b: Matrix4Real): (eq: bool)
    ensures eq <==> a == b
  {
    a.R0 == b.R0 && a.R1 == b.R1 && a.R2 == b.R2 && a.R3 == b.R3
  }

  /** Exact equality passes every tolerance, and a zero tolerance is exact
      equality; `==` is the tolerant test and `!=` its negation. */
  lemma NearlyEqualFacts(a: Matrix4Real, b: Matrix4Real, tolerance: Tolerance)
    ensures IsEqual(a, b) ==> IsNearlyEqual(a, b, tolerance)
    ensures IsNearlyEqual(a, b, 0.0) <==> a == b
    ensures IsNearlyEqual(a, b, tolerance) <==> IsNearlyEqual(b, a, tolerance)
  {
    Vector4.NearlyEqualFacts(a.R0, b.R0, tolerance);
    Vector4.NearlyEqualFacts(a.R1, b.R1, tolerance);
    Vector4.NearlyEqualFacts(a.R2, b.R2, tolerance);
    Vector4.NearlyEqualFacts(a.R3, b.R3, tolerance);
  }

  function IsZero(m: Matrix4Real): (z: bool)
    ensures z <==> m == ZERO
  {
    IsEqual(m, Of(0.0, 0.0, 0.0, 0.0, 0.0, 0.0, 0.0, 0.0, 0.0, 0.0, 0.0, 0.0, 0.0, 0.0, 0.0, 0.0))
  }

  function IsIdentity(m: Matrix4Real): (i: bool)
    ensures i <==> m == IDENTITY
  {
    IsEqual(m, Of(1.0, 0.0, 0.0, 0.0, 0.0, 1.0, 0.0, 0.0, 0.0, 0.0, 1.0, 0.0, 0.0, 0.0, 0.0, 1.0))
  }

  predicate IsNearlyZero(m: Matrix4Real, tolerance: Tolerance)
  {
    IsNearlyEqual(m, Of(0.0, 0.0, 0.0, 0.0, 0.0, 0.0, 0.0, 0.0, 0.0, 0.0, 0.0, 0.0, 0.0, 0.0, 0.0, 0.0), tolerance)
  }

  predicate IsNearlyIdentity(m: Matrix4Real, tolerance: Tolerance)
  {
    IsNearlyEqual(m, Of(1.0, 0.0, 0.0, 0.0, 0.0, 1.0, 0.0, 0.0, 0.0, 0.0, 1.0, 0.0, 0.0, 0.0, 0.0, 1.0), tolerance)
  }

  /** `IsSymmetric`: the six mirrored pairs agree, which is exactly the
      matrix being its own transpose. */
  function IsSymmetric(m: Matrix4Real): (s: bool)
    ensures s <==> Transposed(m) == m
  {
    && m.R0.Y == m.R1.X && m.R0.Z == m.R2.X && m.R0.W == m.R3.X
    && m.R1.Z == m.R2.Y && m.R1.W == m.R3.Y && m.R2.W == m.R3.Z
  }

  /** `IsNearlySymmetric`: the matrix is within the tolerance of its own
      transpose. */
  function IsNearlySymmetric(m: Matrix4Real, tolerance: Tolerance): (s: bool)
    ensures s <==> IsNearlyEqual(Transposed(m), m, tolerance)
    ensures IsSymmetric(m) ==> s
  {
    && Scalar.IsNearlyEqual(m.R0.Y, m.R1.X, tolerance) && Scalar.IsNearlyEqual(m.R0.Z, m.R2.X, tolerance)
    && Scalar.IsNearlyEqual(m.R0.W, m.R3.X, tolerance) && Scalar.IsNearlyEqual(m.R1.Z, m.R2.Y, tolerance)
    && Scalar.IsNearlyEqual(m.R1.W, m.R3.Y, tolerance) && Scalar.IsNearlyEqual(m.R2.W, m.R3.Z, tolerance)
  }

  /** `IsDiagonal`: all twelve off-diagonal entries are zero, so the matrix
      is symmetric. */
  function IsDiagonal(m: Matrix4Real): (d: bool)
    ensures d <==> m == Of(m.R0.X, 0.0, 0.0, 0.0, 0.0, m.R1.Y, 0.0, 0.0, 0.0, 0.0, m.R2.Z, 0.0, 0.0, 0.0, 0.0, m.R3.W)
    ensures d ==> IsSymmetric(m)
  {
    && m.R0.Y == 0.0 && m.R0.Z == 0.0 && m.R0.W == 0.0
    && m.R1.X == 0.0 && m.R1.Z == 0.0 && m.R1.W == 0.0
    && m.R2.X == 0.0 && m.R2.Y == 0.0 && m.R2.W == 0.0
    && m.R3.X == 0.0 && m.R3.Y == 0.0 && m.R3.Z == 0.0
  }

  /** `IsNearlyDiagonal`: every off-diagonal entry is within the tolerance
      of zero, so each mirrored pair is within twice the tolerance. */
  function IsNearlyDiagonal(m: Matrix4Real, tolerance: Tolerance): (d: bool)
    ensures d <==> IsNearlyEqual(m, Of(m.R0.X, 0.0, 0.0, 0.0, 0.0, m.R1.Y, 0.0, 0.0, 0.0, 0.0, m.R2.Z, 0.0, 0.0, 0.0, 0.0, m.R3.W), tolerance)
    ensures IsDiagonal(m) ==> d
  {
    && Scalar.IsNearlyEqual(m.R0.Y, 0.0, tolerance) && Scalar.IsNearlyEqual(m.R0.Z, 0.0, tolerance)
    && Scalar.IsNearlyEqual(m.R0.W, 0.0, tolerance) && Scalar.IsNearlyEqual(m.R1.X, 0.0, tolerance)
    && Scalar.IsNearlyEqual(m.R1.Z, 0.0, tolerance) && Scalar.IsNearlyEqual(m.R1.W, 0.0, tolerance)
    && Scalar.IsNearlyEqual(m.R2.X, 0.0, tolerance) && Scalar.IsNearlyEqual(m.R2.Y, 0.0, tolerance)
    && Scalar.IsNearlyEqual(m.R2.W, 0.0, tolerance) && Scalar.IsNearlyEqual(m.R3.X, 0.0, tolerance)
    && Scalar.IsNearlyEqual(m.R3.Y, 0.0, tolerance) && Scalar.IsNearlyEqual(m.R3.Z, 0.0, tolerance)
  }

  lemma NearlyDiagonalIsNearlySymmetric(m: Matrix4Real, tolerance: Tolerance)
    requires IsNearlyDiagonal(m, tolerance)
    ensures IsNearlySymmetric(m, tolerance + tolerance)
  {
    NearlyZeroPair(m.R0.Y, m.R1.X, tolerance);
    NearlyZeroPair(m.R0.Z, m.R2.X, tolerance);
    NearlyZeroPair(m.R0.W, m.R3.X, tolerance);
    NearlyZeroPair(m.R1.Z, m.R2.Y, tolerance);
    NearlyZeroPair(m.R1.W, m.R3.Y, tolerance);
    NearlyZeroPair(m.R2.W, m.R3.Z, tolerance);
  }
}
