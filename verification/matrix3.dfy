/** `Matrix3Real` (`Public/Math/Matrix3.h`): a 3x3 matrix stored as its three
    row vectors. Its determinant expands along row 0 over `Matrix2Real`
    minors, and its `GetAdjoint` is the cofactor matrix (cofactor (i, j) at
    place (i, j)), which `GetInverted` transposes before dividing by the
    determinant. */
module Matrix3 {
  import opened Scalar
  import opened Vector3
  import Matrix2

  datatype Matrix3Real = Matrix3Real(R0: Vector3Real, R1: Vector3Real, R2: Vector3Real)

  /** The nine-scalar constructor and `Set`, row by row. */
  function Of(r00: real, r01: real, r02: real, r10: real, r11: real, r12: real,
              r20: real, r21: real, r22: real): Matrix3Real
  {
    Matrix3Real(Vector3Real(r00, r01, r02), Vector3Real(r10, r11, r12), Vector3Real(r20, r21, r22))
  }

  const COMPONENT_COUNT: nat := 9
  const IDENTITY: Matrix3Real := Of(1.0, 0.0, 0.0, 0.0, 1.0, 0.0, 0.0, 0.0, 1.0)
  const ZERO: Matrix3Real := Of(0.0, 0.0, 0.0, 0.0, 0.0, 0.0, 0.0, 0.0, 0.0)

  /** The explicit `Matrix3Real(Matrix2Real)` constructor: the 2x2 matrix in
      the top-left corner, a zero third column, and (0, 0, 1) as third row. */
  function FromMatrix2(m2: Matrix2.Matrix2Real): Matrix3Real
  {
    Matrix3Real(Vector3Real(m2.R0.X, m2.R0.Y, 0.0), Vector3Real(m2.R1.X, m2.R1.Y, 0.0), Vector3Real(0.0, 0.0, 1.0))
  }

  /** `ToArray`: the components in row-major order. */
  function ToArray(m: Matrix3Real): (a: seq<real>)
    ensures |a| == COMPONENT_COUNT
  {
    [m.R0.X, m.R0.Y, m.R0.Z, m.R1.X, m.R1.Y, m.R1.Z, m.R2.X, m.R2.Y, m.R2.Z]
  }

  /** The array constructor. */
  function FromArray(a: seq<real>): Matrix3Real
    requires |a| == COMPONENT_COUNT
  {
    Of(a[0], a[1], a[2], a[3], a[4], a[5], a[6], a[7], a[8])
  }

  /** Flattening and the array constructor are inverse to each other. */
  lemma ArrayRoundTrip(m: Matrix3Real, a: seq<real>)
    ensures FromArray(ToArray(m)) == m
    ensures |a| == COMPONENT_COUNT ==> ToArray(FromArray(a)) == a
  {
  }

  /** `operator[]`: the index must be below the component count, and the
      component read is the one at that place of the row-major flattening. */
  function At(m: Matrix3Real, index: nat): (x: real)
    requires index < COMPONENT_COUNT
    ensures x == ToArray(m)[index]
  {
    var row := if index < 3 then m.R0 else if index < 6 then m.R1 else m.R2;
    var k := index % 3;
    if k == 0 then row.X else if k == 1 then row.Y else row.Z
  }

  /** The column views `C0()`, `C1()` and `C2()` read column `j`. */
  function Column(m: Matrix3Real, j: nat): Vector3Real
    requires j < 3
  {
    if j == 0 then Vector3Real(m.R0.X, m.R1.X, m.R2.X)
    else if j == 1 then Vector3Real(m.R0.Y, m.R1.Y, m.R2.Y)
    else Vector3Real(m.R0.Z, m.R1.Z, m.R2.Z)
  }

  /** Component `j` of a row. */
  function Entry(v: Vector3Real, j: nat): real
    requires j < 3
  {
    if j == 0 then v.X else if j == 1 then v.Y else v.Z
  }

  /** `v` with component `j` replaced. */
  function WithEntry(v: Vector3Real, j: nat, x: real): (r: Vector3Real)
    requires j < 3
    ensures Entry(r, j) == x
    ensures forall k :: 0 <= k < 3 && k != j ==> Entry(r, k) == Entry(v, k)
  {
    if j == 0 then v.(X := x) else if j == 1 then v.(Y := x) else v.(Z := x)
  }

  /** Writing a vector through the mutable column view `j`: column `j`
      becomes that vector and every other column is left alone. */
  function WithColumn(m: Matrix3Real, j: nat, v: Vector3Real): (r: Matrix3Real)
    requires j < 3
    ensures Column(r, j) == v
    ensures forall k :: 0 <= k < 3 && k != j ==> Column(r, k) == Column(m, k)
  {
    Matrix3Real(WithEntry(m.R0, j, v.X), WithEntry(m.R1, j, v.Y), WithEntry(m.R2, j, v.Z))
  }

  /** `Determinant`: expansion along row 0 with signs +, -, + over the 2x2
      minors of rows 1 and 2. */
  function Determinant(m: Matrix3Real): real
  {
    m.R0.X * Matrix2.Determinant(Matrix2.Of(m.R1.Y, m.R1.Z, m.R2.Y, m.R2.Z))
    - m.R0.Y * Matrix2.Determinant(Matrix2.Of(m.R1.X, m.R1.Z, m.R2.X, m.R2.Z))
    + m.R0.Z * Matrix2.Determinant(Matrix2.Of(m.R1.X, m.R1.Y, m.R2.X, m.R2.Y))
  }

  /** Scaling every row by `s` scales the determinant by `s` cubed: each
      2x2 minor picks up `s` squared and each entry of row 0 one more `s`. */
  lemma DeterminantScaled(m: Matrix3Real, s: real)
    ensures Determinant(ScaleBy(m, s)) == s * s * s * Determinant(m)
  {
    var a := Matrix2.Determinant(Matrix2.Of(m.R1.Y, m.R1.Z, m.R2.Y, m.R2.Z));
    var b := Matrix2.Determinant(Matrix2.Of(m.R1.X, m.R1.Z, m.R2.X, m.R2.Z));
    var c := Matrix2.Determinant(Matrix2.Of(m.R1.X, m.R1.Y, m.R2.X, m.R2.Y));
    Matrix2.DeterminantScaled(m.R1.Y, m.R1.Z, m.R2.Y, m.R2.Z, s);
    Matrix2.DeterminantScaled(m.R1.X, m.R1.Z, m.R2.X, m.R2.Z, s);
    Matrix2.DeterminantScaled(m.R1.X, m.R1.Y, m.R2.X, m.R2.Y, s);
    var k := s * s * s;
    calc {
      Determinant(ScaleBy(m, s));
      (m.R0.X * s) * (s * s * a) - (m.R0.Y * s) * (s * s * b) + (m.R0.Z * s) * (s * s * c);
      { ProductRegroup(m.R0.X, a, s); ProductRegroup(m.R0.Y, b, s); ProductRegroup(m.R0.Z, c, s); }
      k * (m.R0.X * a) - k * (m.R0.Y * b) + k * (m.R0.Z * c);
      k * (m.R0.X * a - m.R0.Y * b + m.R0.Z * c);
    }
  }

  /** `(x s)(s^2 y)` regrouped as `s^3 (x y)`. */
  lemma ProductRegroup(x: real, y: real, s: real)
    ensures (x * s) * (s * s * y) == s * s * s * (x * y)
  {
  }

  /** `GetTransposed` (and `Transpose`): the rows of the result are the
      columns of the matrix. */
  function Transposed(m: Matrix3Real): (t: Matrix3Real)
    ensures t.R0 == Column(m, 0) && t.R1 == Column(m, 1) && t.R2 == Column(m, 2)
  {
    Of(m.R0.X, m.R1.X, m.R2.X,
       m.R0.Y, m.R1.Y, m.R2.Y,
       m.R0.Z, m.R1.Z, m.R2.Z)
  }

  function Trace(m: Matrix3Real): real
  {
    m.R0.X + m.R1.Y + m.R2.Z
  }

  /** `GetAdjoint`: the cofactor matrix, the signed 2x2 minor of entry
      (i, j) placed at (i, j). */
  function Adjoint(m: Matrix3Real): Matrix3Real
  {
    var R0, R1, R2 := m.R0, m.R1, m.R2;
    Of(Matrix2.Determinant(Matrix2.Of(R1.Y, R1.Z, R2.Y, R2.Z)), -Matrix2.Determinant(Matrix2.Of(R1.X, R1.Z, R2.X, R2.Z)), Matrix2.Determinant(Matrix2.Of(R1.X, R1.Y, R2.X, R2.Y)),
       -Matrix2.Determinant(Matrix2.Of(R0.Y, R0.Z, R2.Y, R2.Z)), Matrix2.Determinant(Matrix2.Of(R0.X, R0.Z, R2.X, R2.Z)), -Matrix2.Determinant(Matrix2.Of(R0.X, R0.Y, R2.X, R2.Y)),
       Matrix2.Determinant(Matrix2.Of(R0.Y, R0.Z, R1.Y, R1.Z)), -Matrix2.Determinant(Matrix2.Of(R0.X, R0.Z, R1.X, R1.Z)), Matrix2.Determinant(Matrix2.Of(R0.X, R0.Y, R1.X, R1.Y)))
  }

  function Add(a: Matrix3Real, b: Matrix3Real): Matrix3Real
  {
    Matrix3Real(Vector3.Add(a.R0, b.R0), Vector3.Add(a.R1, b.R1), Vector3.Add(a.R2, b.R2))
  }

  function Sub(a: Matrix3Real, b: Matrix3Real): Matrix3Real
  {
    Matrix3Real(Vector3.Sub(a.R0, b.R0), Vector3.Sub(a.R1, b.R1), Vector3.Sub(a.R2, b.R2))
  }

  /** `matrix * scalar`, each row scaled. */
  function ScaleBy(m: Matrix3Real, s: real): Matrix3Real
  {
    Matrix3Real(Scale(m.R0, s), Scale(m.R1, s), Scale(m.R2, s))
  }

  /** `scalar * matrix`: the same matrix as `matrix * scalar`. All three
      rows are scaled, so the determinant is scaled by the cube of the
      scalar. */
  function ScaleLeft(s: real, m: Matrix3Real): (r: Matrix3Real)
    ensures r == ScaleBy(m, s)
    ensures Determinant(r) == s * s * s * Determinant(m)
  {
    DeterminantScaled(m, s);
    Matrix3Real(Scale(m.R0, s), Scale(m.R1, s), Scale(m.R2, s))
  }

  /** `matrix * matrix`: entry (i, j) is row i of the left matrix dotted with
      column j of the right one. */
  function Mul(a: Matrix3Real, b: Matrix3Real): Matrix3Real
  {
    Matrix3Real(Vector3Real(Dot(a.R0, Column(b, 0)), Dot(a.R0, Column(b, 1)), Dot(a.R0, Column(b, 2))),
                Vector3Real(Dot(a.R1, Column(b, 0)), Dot(a.R1, Column(b, 1)), Dot(a.R1, Column(b, 2))),
                Vector3Real(Dot(a.R2, Column(b, 0)), Dot(a.R2, Column(b, 1)), Dot(a.R2, Column(b, 2))))
  }

  /** `matrix * vector`: each row dotted with the vector. */
  function MulVec(m: Matrix3Real, v: Vector3Real): Vector3Real
  {
    Vector3Real(m.R0.X * v.X + m.R0.Y * v.Y + m.R0.Z * v.Z,
                m.R1.X * v.X + m.R1.Y * v.Y + m.R1.Z * v.Z,
                m.R2.X * v.X + m.R2.Y * v.Y + m.R2.Z * v.Z)
  }

  /** `vector * matrix` as written: it dots the vector with the rows, so it
      is the same product as `matrix * vector`. It agrees with the
      row-vector product, the vector dotted with the columns, only when the
      matrix is symmetric (see `VecMulAdjoint`). */
  function VecMul(v: Vector3Real, m: Matrix3Real): (r: Vector3Real)
    ensures r == MulVec(m, v)
    ensures IsSymmetric(m) ==> r == MulVec(Transposed(m), v)
  {
    Vector3Real(v.X * m.R0.X + v.Y * m.R0.Y + v.Z * m.R0.Z,
                v.X * m.R1.X + v.Y * m.R1.Y + v.Z * m.R1.Z,
                v.X * m.R2.X + v.Y * m.R2.Y + v.Z * m.R2.Z)
  }

  /** Dotted with any vector `w`, `v * m` as written gives `v` dotted with
      the transpose of `m` times `w`. A row-vector product would give `v`
      dotted with `m` times `w`. */
  lemma VecMulAdjoint(v: Vector3Real, m: Matrix3Real, w: Vector3Real)
    ensures Dot(VecMul(v, m), w) == Dot(v, MulVec(Transposed(m), w))
  {
    AdjointSum(v.X, v.Y, v.Z, m.R0.X, m.R0.Y, m.R0.Z, m.R1.X, m.R1.Y, m.R1.Z, m.R2.X, m.R2.Y, m.R2.Z, w.X, w.Y, w.Z);
  }

  /** `VecMulAdjoint` over the entries: both sides are the sum of the
      products `v_j m_ij w_i`. */
  lemma AdjointSum(v0: real, v1: real, v2: real, m00: real, m01: real, m02: real, m10: real, m11: real, m12: real, m20: real, m21: real, m22: real, w0: real, w1: real, w2: real)
    ensures (v0 * m00 + v1 * m01 + v2 * m02) * w0 + (v0 * m10 + v1 * m11 + v2 * m12) * w1 + (v0 * m20 + v1 * m21 + v2 * m22) * w2
         == v0 * (m00 * w0 + m10 * w1 + m20 * w2) + v1 * (m01 * w0 + m11 * w1 + m21 * w2) + v2 * (m02 * w0 + m12 * w1 + m22 * w2)
  {
  }

  /** `GetInverted` (and `Inverse`): the matrix itself when its determinant
      is within the tolerance of zero; otherwise the transposed cofactor
      matrix with every row scaled by the reciprocal of the determinant,
      which is a two-sided inverse. */
  function Inverted(m: Matrix3Real, tolerance: Tolerance): (r: Matrix3Real)
    ensures Scalar.IsNearlyEqual(Determinant(m), 0.0, tolerance) ==> r == m
    ensures !Scalar.IsNearlyEqual(Determinant(m), 0.0, tolerance) ==> Mul(m, r) == IDENTITY && Mul(r, m) == IDENTITY
  {
    var determinant := Determinant(m);
    if Scalar.IsNearlyEqual(determinant, 0.0, tolerance) then m
    else
      var invDeterminant := 1.0 / determinant;
      InverseProducts(m, invDeterminant);
      ScaleBy(Transposed(Adjoint(m)), invDeterminant)
  }

  /** The adjugate scaled by a reciprocal of the determinant is a two-sided
      inverse. */
  lemma InverseProducts(m: Matrix3Real, inv: real)
    requires Determinant(m) * inv == 1.0
    ensures var r := ScaleBy(Transposed(Adjoint(m)), inv);
      Mul(m, r) == IDENTITY && Mul(r, m) == IDENTITY
  {
    RightInverse(m, inv);
    LeftInverse(m, inv);
  }

  lemma RightInverse(m: Matrix3Real, inv: real)
    requires Determinant(m) * inv == 1.0
    ensures Mul(m, ScaleBy(Transposed(Adjoint(m)), inv)) == IDENTITY
  {
    AdjointRowDots(m);
    ScaledRightInverse(m, Adjoint(m), Determinant(m), inv);
  }

  lemma LeftInverse(m: Matrix3Real, inv: real)
    requires Determinant(m) * inv == 1.0
    ensures Mul(ScaleBy(Transposed(Adjoint(m)), inv), m) == IDENTITY
  {
    AdjointColumnDots(m);
    ScaledLeftInverse(Adjoint(m), m, Determinant(m), inv);
  }

  /** The transposed cofactor matrix (the adjugate) multiplied by the matrix
      on either side is the determinant times the identity: each row dotted
      with its own cofactors gives the determinant, and with another row's
      cofactors gives the determinant of a matrix with a repeated row. */
  lemma AdjugateProducts(m: Matrix3Real)
    ensures Mul(m, Transposed(Adjoint(m))) == ScaleBy(IDENTITY, Determinant(m))
    ensures Mul(Transposed(Adjoint(m)), m) == ScaleBy(IDENTITY, Determinant(m))
  {
    AdjointRowDots(m);
    RowDotsGiveScaledIdentity(m, Adjoint(m), Determinant(m));
    AdjointColumnDots(m);
    ColumnDotsGiveScaledIdentity(Adjoint(m), m, Determinant(m));
  }

  /** Each row of cofactors is the cross product of the other two rows,
      taken in cyclic order. */
  lemma AdjointRows(m: Matrix3Real)
    ensures Adjoint(m) == Matrix3Real(Cross(m.R1, m.R2), Cross(m.R2, m.R0), Cross(m.R0, m.R1))
  {
    AdjointRow0(m);
    AdjointRow1(m);
    AdjointRow2(m);
  }

  lemma AdjointRow0(m: Matrix3Real)
    ensures Adjoint(m).R0 == Cross(m.R1, m.R2)
  {
  }

  lemma AdjointRow1(m: Matrix3Real)
    ensures Adjoint(m).R1 == Cross(m.R2, m.R0)
  {
  }

  lemma AdjointRow2(m: Matrix3Real)
    ensures Adjoint(m).R2 == Cross(m.R0, m.R1)
  {
  }

  /** Each column of cofactors is the cross product of the other two
      columns, taken in cyclic order. */
  lemma AdjointColumns(m: Matrix3Real)
    ensures Column(Adjoint(m), 0) == Cross(Column(m, 1), Column(m, 2))
    ensures Column(Adjoint(m), 1) == Cross(Column(m, 2), Column(m, 0))
    ensures Column(Adjoint(m), 2) == Cross(Column(m, 0), Column(m, 1))
  {
    AdjointColumn0(m);
    AdjointColumn1(m);
    AdjointColumn2(m);
  }

  lemma AdjointColumn0(m: Matrix3Real)
    ensures Column(Adjoint(m), 0) == Cross(Column(m, 1), Column(m, 2))
  {
  }

  lemma AdjointColumn1(m: Matrix3Real)
    ensures Column(Adjoint(m), 1) == Cross(Column(m, 2), Column(m, 0))
  {
  }

  lemma AdjointColumn2(m: Matrix3Real)
    ensures Column(Adjoint(m), 2) == Cross(Column(m, 0), Column(m, 1))
  {
  }

  /** The determinant is the scalar triple product of the rows, and also of
      the columns. */
  lemma DeterminantIsTripleProduct(m: Matrix3Real)
    ensures Determinant(m) == Dot(m.R0, Cross(m.R1, m.R2))
    ensures Determinant(m) == Dot(Column(m, 0), Cross(Column(m, 1), Column(m, 2)))
  {
    DeterminantTransposed(m);
  }

  /** Each row dotted with the cofactors of each row: the determinant for
      its own row, zero for another. */
  lemma AdjointRowDots(m: Matrix3Real)
    ensures var adj, d := Adjoint(m), Determinant(m);
      && Dot(m.R0, adj.R0) == d && Dot(m.R0, adj.R1) == 0.0 && Dot(m.R0, adj.R2) == 0.0
      && Dot(m.R1, adj.R0) == 0.0 && Dot(m.R1, adj.R1) == d && Dot(m.R1, adj.R2) == 0.0
      && Dot(m.R2, adj.R0) == 0.0 && Dot(m.R2, adj.R1) == 0.0 && Dot(m.R2, adj.R2) == d
  {
    AdjointRows(m);
    DeterminantIsTripleProduct(m);
    TripleProductCyclic(m.R0, m.R1, m.R2);
    CrossOrthogonal(m.R1, m.R2);
    CrossOrthogonal(m.R2, m.R0);
    CrossOrthogonal(m.R0, m.R1);
  }

  /** Each column dotted with the cofactors of each column. */
  lemma AdjointColumnDots(m: Matrix3Real)
    ensures var adj, d := Adjoint(m), Determinant(m);
      && Dot(Column(adj, 0), Column(m, 0)) == d && Dot(Column(adj, 0), Column(m, 1)) == 0.0 && Dot(Column(adj, 0), Column(m, 2)) == 0.0
      && Dot(Column(adj, 1), Column(m, 0)) == 0.0 && Dot(Column(adj, 1), Column(m, 1)) == d && Dot(Column(adj, 1), Column(m, 2)) == 0.0
      && Dot(Column(adj, 2), Column(m, 0)) == 0.0 && Dot(Column(adj, 2), Column(m, 1)) == 0.0 && Dot(Column(adj, 2), Column(m, 2)) == d
  {
    var c0, c1, c2 := Column(m, 0), Column(m, 1), Column(m, 2);
    AdjointColumns(m);
    DeterminantIsTripleProduct(m);
    TripleProductCyclic(c0, c1, c2);
    CrossOrthogonal(c1, c2);
    CrossOrthogonal(c2, c0);
    CrossOrthogonal(c0, c1);
    DotCommutes(Cross(c1, c2), c0);
    DotCommutes(Cross(c1, c2), c1);
    DotCommutes(Cross(c1, c2), c2);
    DotCommutes(Cross(c2, c0), c0);
    DotCommutes(Cross(c2, c0), c1);
    DotCommutes(Cross(c2, c0), c2);
    DotCommutes(Cross(c0, c1), c0);
    DotCommutes(Cross(c0, c1), c1);
    DotCommutes(Cross(c0, c1), c2);
  }

  /** When row i of `m` dotted with row j of `n` is `d` on the diagonal and
      zero off it, `m` times the transpose of `n` is `d` times the identity. */
  lemma RowDotsGiveScaledIdentity(m: Matrix3Real, n: Matrix3Real, d: real)
    requires Dot(m.R0, n.R0) == d && Dot(m.R0, n.R1) == 0.0 && Dot(m.R0, n.R2) == 0.0
    requires Dot(m.R1, n.R0) == 0.0 && Dot(m.R1, n.R1) == d && Dot(m.R1, n.R2) == 0.0
    requires Dot(m.R2, n.R0) == 0.0 && Dot(m.R2, n.R1) == 0.0 && Dot(m.R2, n.R2) == d
    ensures Mul(m, Transposed(n)) == ScaleBy(IDENTITY, d)
  {
  }

  /** When column i of `n` dotted with column j of `m` is `d` on the diagonal
      and zero off it, the transpose of `n` times `m` is `d` times the
      identity. */
  lemma ColumnDotsGiveScaledIdentity(n: Matrix3Real, m: Matrix3Real, d: real)
    requires Dot(Column(n, 0), Column(m, 0)) == d && Dot(Column(n, 0), Column(m, 1)) == 0.0 && Dot(Column(n, 0), Column(m, 2)) == 0.0
    requires Dot(Column(n, 1), Column(m, 0)) == 0.0 && Dot(Column(n, 1), Column(m, 1)) == d && Dot(Column(n, 1), Column(m, 2)) == 0.0
    requires Dot(Column(n, 2), Column(m, 0)) == 0.0 && Dot(Column(n, 2), Column(m, 1)) == 0.0 && Dot(Column(n, 2), Column(m, 2)) == d
    ensures Mul(Transposed(n), m) == ScaleBy(IDENTITY, d)
  {
  }

  /** A product with a transposed right operand: entry (i, j) is row i of
      the left operand dotted with row j of the right one. */
  lemma MulTransposedRight(m: Matrix3Real, n: Matrix3Real)
    ensures Mul(m, Transposed(n)) == Matrix3Real(
      Vector3Real(Dot(m.R0, n.R0), Dot(m.R0, n.R1), Dot(m.R0, n.R2)),
      Vector3Real(Dot(m.R1, n.R0), Dot(m.R1, n.R1), Dot(m.R1, n.R2)),
      Vector3Real(Dot(m.R2, n.R0), Dot(m.R2, n.R1), Dot(m.R2, n.R2)))
  {
  }

  /** A product with a transposed left operand: entry (i, j) is column i of
      the left operand dotted with column j of the right one. */
  lemma MulTransposedLeft(n: Matrix3Real, m: Matrix3Real)
    ensures Mul(Transposed(n), m) == Matrix3Real(
      Vector3Real(Dot(Column(n, 0), Column(m, 0)), Dot(Column(n, 0), Column(m, 1)), Dot(Column(n, 0), Column(m, 2))),
      Vector3Real(Dot(Column(n, 1), Column(m, 0)), Dot(Column(n, 1), Column(m, 1)), Dot(Column(n, 1), Column(m, 2))),
      Vector3Real(Dot(Column(n, 2), Column(m, 0)), Dot(Column(n, 2), Column(m, 1)), Dot(Column(n, 2), Column(m, 2))))
  {
    TransposeFacts(m);
    MulTransposedRight(Transposed(n), Transposed(m));
  }

  /** Scaling commutes with transposition, and scales every column. */
  lemma ScaledTransposed(n: Matrix3Real, s: real)
    ensures ScaleBy(Transposed(n), s) == Transposed(ScaleBy(n, s))
    ensures Column(ScaleBy(n, s), 0) == Scale(Column(n, 0), s)
    ensures Column(ScaleBy(n, s), 1) == Scale(Column(n, 1), s)
    ensures Column(ScaleBy(n, s), 2) == Scale(Column(n, 2), s)
  {
    ScaledColumns(n, s);
    assert ScaleBy(Transposed(n), s).R0 == Transposed(ScaleBy(n, s)).R0;
    assert ScaleBy(Transposed(n), s).R1 == Transposed(ScaleBy(n, s)).R1;
    assert ScaleBy(Transposed(n), s).R2 == Transposed(ScaleBy(n, s)).R2;
  }

  lemma ScaledColumns(n: Matrix3Real, s: real)
    ensures Column(ScaleBy(n, s), 0) == Scale(Column(n, 0), s)
    ensures Column(ScaleBy(n, s), 1) == Scale(Column(n, 1), s)
    ensures Column(ScaleBy(n, s), 2) == Scale(Column(n, 2), s)
  {
    ScaledColumn(n, s, 0);
    ScaledColumn(n, s, 1);
    ScaledColumn(n, s, 2);
  }

  lemma ScaledColumn(n: Matrix3Real, s: real, j: nat)
    requires j < 3
    ensures Column(ScaleBy(n, s), j) == Scale(Column(n, j), s)
  {
  }

  /** One vector dotted with three vectors gives `d` at place `k` and zero
      elsewhere; after scaling the three by a reciprocal of `d` it gives one
      at place `k` and zero elsewhere. */
  lemma ScaledDots(a: Vector3Real, n0: Vector3Real, n1: Vector3Real, n2: Vector3Real, d: real, inv: real, k: nat)
    requires k < 3 && d * inv == 1.0
    requires Dot(a, n0) == (if k == 0 then d else 0.0)
    requires Dot(a, n1) == (if k == 1 then d else 0.0)
    requires Dot(a, n2) == (if k == 2 then d else 0.0)
    ensures Dot(a, Scale(n0, inv)) == (if k == 0 then 1.0 else 0.0)
    ensures Dot(a, Scale(n1, inv)) == (if k == 1 then 1.0 else 0.0)
    ensures Dot(a, Scale(n2, inv)) == (if k == 2 then 1.0 else 0.0)
  {
    ScaledDot(a, n0, d, inv, k == 0);
    ScaledDot(a, n1, d, inv, k == 1);
    ScaledDot(a, n2, d, inv, k == 2);
  }

  /** A dot product equal to `d` or to zero, with the second vector scaled
      by a reciprocal of `d`, is one or zero. */
  lemma ScaledDot(a: Vector3Real, n: Vector3Real, d: real, inv: real, isD: bool)
    requires d * inv == 1.0 && Dot(a, n) == (if isD then d else 0.0)
    ensures Dot(a, Scale(n, inv)) == (if isD then 1.0 else 0.0)
  {
    DotScaled(a, n, inv);
    ReciprocalScaled(Dot(a, n), d, inv, isD);
  }

  /** If `m` times the transpose of `n` is `d` times the identity, then `m`
      times the transpose of `n` scaled by a reciprocal of `d` is the
      identity. */
  lemma ScaledRightInverse(m: Matrix3Real, n: Matrix3Real, d: real, inv: real)
    requires d * inv == 1.0
    requires Dot(m.R0, n.R0) == d && Dot(m.R0, n.R1) == 0.0 && Dot(m.R0, n.R2) == 0.0
    requires Dot(m.R1, n.R0) == 0.0 && Dot(m.R1, n.R1) == d && Dot(m.R1, n.R2) == 0.0
    requires Dot(m.R2, n.R0) == 0.0 && Dot(m.R2, n.R1) == 0.0 && Dot(m.R2, n.R2) == d
    ensures Mul(m, ScaleBy(Transposed(n), inv)) == IDENTITY
  {
    ScaledDots(m.R0, n.R0, n.R1, n.R2, d, inv, 0);
    ScaledDots(m.R1, n.R0, n.R1, n.R2, d, inv, 1);
    ScaledDots(m.R2, n.R0, n.R1, n.R2, d, inv, 2);
    ScaledTransposed(n, inv);
    MulTransposedRight(m, ScaleBy(n, inv));
  }

  /** If the transpose of `n` times `m` is `d` times the identity, then the
      transpose of `n` scaled by a reciprocal of `d`, times `m`, is the
      identity. */
  lemma ScaledLeftInverse(n: Matrix3Real, m: Matrix3Real, d: real, inv: real)
    requires d * inv == 1.0
    requires Dot(Column(n, 0), Column(m, 0)) == d && Dot(Column(n, 0), Column(m, 1)) == 0.0 && Dot(Column(n, 0), Column(m, 2)) == 0.0
    requires Dot(Column(n, 1), Column(m, 0)) == 0.0 && Dot(Column(n, 1), Column(m, 1)) == d && Dot(Column(n, 1), Column(m, 2)) == 0.0
    requires Dot(Column(n, 2), Column(m, 0)) == 0.0 && Dot(Column(n, 2), Column(m, 1)) == 0.0 && Dot(Column(n, 2), Column(m, 2)) == d
    ensures Mul(ScaleBy(Transposed(n), inv), m) == IDENTITY
  {
    var c0, c1, c2 := Column(m, 0), Column(m, 1), Column(m, 2);
    var k0, k1, k2 := Column(n, 0), Column(n, 1), Column(n, 2);
    DotCommutes(k0, c0); DotCommutes(k0, c1); DotCommutes(k0, c2);
    DotCommutes(k1, c0); DotCommutes(k1, c1); DotCommutes(k1, c2);
    DotCommutes(k2, c0); DotCommutes(k2, c1); DotCommutes(k2, c2);
    ScaledDots(c0, k0, k1, k2, d, inv, 0);
    ScaledDots(c1, k0, k1, k2, d, inv, 1);
    ScaledDots(c2, k0, k1, k2, d, inv, 2);
    DotCommutes(Scale(k0, inv), c0); DotCommutes(Scale(k0, inv), c1); DotCommutes(Scale(k0, inv), c2);
    DotCommutes(Scale(k1, inv), c0); DotCommutes(Scale(k1, inv), c1); DotCommutes(Scale(k1, inv), c2);
    DotCommutes(Scale(k2, inv), c0); DotCommutes(Scale(k2, inv), c1); DotCommutes(Scale(k2, inv), c2);
    ScaledTransposed(n, inv);
    MulTransposedLeft(ScaleBy(n, inv), m);
  }

  /** Row 0 dotted with the cofactors of row 0 is the determinant. */
  lemma AdjointFirstRow(m: Matrix3Real)
    ensures Dot(m.R0, Adjoint(m).R0) == Determinant(m)
  {
  }

  /** The determinant of the constants. */
  lemma DeterminantConstants()
    ensures Determinant(IDENTITY) == 1.0 && Determinant(ZERO) == 0.0
  {
  }

  /** Embedding a 2x2 matrix keeps its determinant. */
  lemma DeterminantEmbedded(m2: Matrix2.Matrix2Real)
    ensures Determinant(FromMatrix2(m2)) == Matrix2.Determinant(m2)
  {
  }

  /** Transposing keeps the determinant. */
  lemma DeterminantTransposed(m: Matrix3Real)
    ensures Determinant(Transposed(m)) == Determinant(m)
  {
    var a, b, c := m.R0, m.R1, m.R2;
    TransposeDeterminant(a.X, a.Y, a.Z, b.X, b.Y, b.Z, c.X, c.Y, c.Z);
  }

  /** Exchanging two rows negates the determinant. */
  lemma SwapRows(m: Matrix3Real)
    ensures Determinant(Matrix3Real(m.R1, m.R0, m.R2)) == -Determinant(m)
    ensures Determinant(Matrix3Real(m.R0, m.R2, m.R1)) == -Determinant(m)
  {
    var a, b, c := m.R0, m.R1, m.R2;
    var monomials := a.X * b.Y * c.Z - a.X * b.Z * c.Y - a.Y * b.X * c.Z + a.Y * b.Z * c.X + a.Z * b.X * c.Y - a.Z * b.Y * c.X;
    assert Determinant(m) == monomials;
    assert Determinant(Matrix3Real(b, a, c)) == -monomials;
    assert Determinant(Matrix3Real(a, c, b)) == -monomials;
  }

  /** The row-0 expansion of the transpose, over scalars, equals the row-0
      expansion of the matrix: both are the same six signed monomials. */
  lemma TransposeDeterminant(a0: real, a1: real, a2: real, b0: real, b1: real, b2: real, c0: real, c1: real, c2: real)
    ensures a0 * (b1 * c2 - c1 * b2) - b0 * (a1 * c2 - c1 * a2) + c0 * (a1 * b2 - b1 * a2)
         == a0 * (b1 * c2 - b2 * c1) - a1 * (b0 * c2 - b2 * c0) + a2 * (b0 * c1 - b1 * c0)
  {
    var monomials := a0 * b1 * c2 - a0 * b2 * c1 - a1 * b0 * c2 + a1 * b2 * c0 + a2 * b0 * c1 - a2 * b1 * c0;
    assert a0 * (b1 * c2 - b2 * c1) - a1 * (b0 * c2 - b2 * c0) + a2 * (b0 * c1 - b1 * c0) == monomials;
    assert a0 * (b1 * c2 - c1 * b2) - b0 * (a1 * c2 - c1 * a2) + c0 * (a1 * b2 - b1 * a2) == monomials;
  }

  /** Transposing twice gives the matrix back and keeps the trace. */
  lemma TransposeFacts(m: Matrix3Real)
    ensures Transposed(Transposed(m)) == m
    ensures Trace(Transposed(m)) == Trace(m)
  {
  }

  /** `IDENTITY` is a two-sided unit of the product and fixes every vector. */
  lemma IdentityUnit(m: Matrix3Real, v: Vector3Real)
    ensures Mul(IDENTITY, m) == m && Mul(m, IDENTITY) == m
    ensures MulVec(IDENTITY, v) == v
  {
  }

  /** `IsNearlyEqual`: every row within the tolerance. */
  predicate IsNearlyEqual(a: Matrix3Real, b: Matrix3Real, tolerance: Tolerance)
  {
    && Vector3.IsNearlyEqual(a.R0, b.R0, tolerance)
    && Vector3.IsNearlyEqual(a.R1, b.R1, tolerance)
    && Vector3.IsNearlyEqual(a.R2, b.R2, tolerance)
  }

  /** `IsEqual`: every row equal. */
  function IsEqual(a: Matrix3Real, b: Matrix3Real): (eq: bool)
    ensures eq <==> a == b
  {
    a.R0 == b.R0 && a.R1 == b.R1 && a.R2 == b.R2
  }

  /** Exact equality passes every tolerance, and a zero tolerance is exact
      equality; `==` is the tolerant test and `!=` its negation. */
  lemma NearlyEqualFacts(a: Matrix3Real, b: Matrix3Real, tolerance: Tolerance)
    ensures IsEqual(a, b) ==> IsNearlyEqual(a, b, tolerance)
    ensures IsNearlyEqual(a, b, 0.0) <==> a == b
  {
  }

  function IsZero(m: Matrix3Real): (z: bool)
    ensures z <==> m == ZERO
  {
    IsEqual(m, Of(0.0, 0.0, 0.0, 0.0, 0.0, 0.0, 0.0, 0.0, 0.0))
  }

  function IsIdentity(m: Matrix3Real): (i: bool)
    ensures i <==> m == IDENTITY
  {
    IsEqual(m, Of(1.0, 0.0, 0.0, 0.0, 1.0, 0.0, 0.0, 0.0, 1.0))
  }

  predicate IsNearlyZero(m: Matrix3Real, tolerance: Tolerance)
  {
    IsNearlyEqual(m, Of(0.0, 0.0, 0.0, 0.0, 0.0, 0.0, 0.0, 0.0, 0.0), tolerance)
  }

  predicate IsNearlyIdentity(m: Matrix3Real, tolerance: Tolerance)
  {
    IsNearlyEqual(m, Of(1.0, 0.0, 0.0, 0.0, 1.0, 0.0, 0.0, 0.0, 1.0), tolerance)
  }

  /** `IsSymmetric`: the three mirrored pairs agree, which is exactly the
      matrix being its own transpose. */
  function IsSymmetric(m: Matrix3Real): (s: bool)
    ensures s <==> Transposed(m) == m
  {
    m.R1.X == m.R0.Y && m.R1.Z == m.R2.Y && m.R2.X == m.R0.Z
  }

  /** `IsNearlySymmetric`: the matrix is within the tolerance of its own
      transpose. */
  function IsNearlySymmetric(m: Matrix3Real, tolerance: Tolerance): (s: bool)
    ensures s <==> IsNearlyEqual(Transposed(m), m, tolerance)
    ensures IsSymmetric(m) ==> s
  {
    && Scalar.IsNearlyEqual(m.R1.X, m.R0.Y, tolerance)
    && Scalar.IsNearlyEqual(m.R1.Z, m.R2.Y, tolerance)
    && Scalar.IsNearlyEqual(m.R2.X, m.R0.Z, tolerance)
  }

  /** `IsDiagonal`: all six off-diagonal entries are zero, so the matrix is
      symmetric. */
  function IsDiagonal(m: Matrix3Real): (d: bool)
    ensures d <==> m == Of(m.R0.X, 0.0, 0.0, 0.0, m.R1.Y, 0.0, 0.0, 0.0, m.R2.Z)
    ensures d ==> IsSymmetric(m)
  {
    m.R0.Y == 0.0 && m.R0.Z == 0.0 && m.R1.X == 0.0 && m.R1.Z == 0.0 && m.R2.X == 0.0 && m.R2.Y == 0.0
  }

  /** `IsNearlyDiagonal`: every off-diagonal entry within the tolerance of
      zero, so every mirrored pair is within twice the tolerance. */
  function IsNearlyDiagonal(m: Matrix3Real, tolerance: Tolerance): (d: bool)
    ensures d <==> IsNearlyEqual(m, Of(m.R0.X, 0.0, 0.0, 0.0, m.R1.Y, 0.0, 0.0, 0.0, m.R2.Z), tolerance)
    ensures IsDiagonal(m) ==> d
    ensures d ==> IsNearlySymmetric(m, tolerance + tolerance)
  {
    && Scalar.IsNearlyEqual(m.R0.Y, 0.0, tolerance)
    && Scalar.IsNearlyEqual(m.R0.Z, 0.0, tolerance)
    && Scalar.IsNearlyEqual(m.R1.X, 0.0, tolerance)
    && Scalar.IsNearlyEqual(m.R1.Z, 0.0, tolerance)
    && Scalar.IsNearlyEqual(m.R2.X, 0.0, tolerance)
    && Scalar.IsNearlyEqual(m.R2.Y, 0.0, tolerance)
  }
}
