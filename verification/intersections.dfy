/** The two line-line solvers of the intersection helpers: the 2D parametric
    solver with its near-parallel guard and the 3D closest-point solver. The
    point-in-segment test lives with the segment types (module `Segment2`),
    which call these solvers. */
module Intersections {
  import opened Scalar
  import opened Vector2
  import Vector3

  /** The near-parallel threshold of the 2D solver, a literal of the source. */
  const PARALLEL_THRESHOLD: real := 0.00001

  /** Where two parametric lines meet (or come closest), as one parameter per
      line: the point `originA + tA * directionA` on line A and the point
      `originB + tB * directionB` on line B. This is the `(ok, tA, tB)` shape
      the segment types expect, with `ok` carried by `Return`. */
  datatype LineParameters = LineParameters(tA: real, tB: real)

  /** The point at parameter `t` of the line through `origin` along `direction`. */
  function PointOnLine2(origin: Vector2Real, direction: Vector2Real, t: real): Vector2Real
  {
    Add(origin, Scale(direction, t))
  }

  /** The 2D solver with the result the segment caller expects: it fails
      exactly when the directions are nearly parallel, and otherwise returns
      the parameters at which both lines reach the same point. */
  function Line2LineIntersection(originA: Vector2Real, directionA: Vector2Real,
                                 originB: Vector2Real, directionB: Vector2Real): (r: Return<LineParameters>)
    ensures r.Failure? <==> Abs(Cross(directionA, directionB)) < PARALLEL_THRESHOLD
    ensures r.Success? ==> PointOnLine2(originA, directionA, r.value.tA) == PointOnLine2(originB, directionB, r.value.tB)
  {
    var d := Cross(directionA, directionB);
    if Abs(d) < PARALLEL_THRESHOLD then
      Failure
    else
      var a2b := Sub(originB, originA);
      var tA := Cross(a2b, directionB) / d;
      var tB := Cross(a2b, directionA) / d;
      LinesMeet(originA, directionA, originB, directionB, tA, tB);
      Success(LineParameters(tA, tB))
  }

  /** Parameters solving Cramer's rule for the two lines give one common point. */
  lemma LinesMeet(originA: Vector2Real, directionA: Vector2Real, originB: Vector2Real, directionB: Vector2Real, tA: real, tB: real)
    requires Cross(directionA, directionB) != 0.0
    requires tA * Cross(directionA, directionB) == Cross(Sub(originB, originA), directionB)
    requires tB * Cross(directionA, directionB) == Cross(Sub(originB, originA), directionA)
    ensures PointOnLine2(originA, directionA, tA) == PointOnLine2(originB, directionB, tB)
  {
    var a := Sub(originB, originA);
    CramerComponents(a.X, a.Y, directionA.X, directionA.Y, directionB.X, directionB.Y, tA, tB);
  }

  /** The scalar core of `LinesMeet`: with `d` the cross product of `u` and
      `v`, the Cramer parameters solve `tA * u - tB * v == a`. */
  lemma CramerComponents(ax: real, ay: real, ux: real, uy: real, vx: real, vy: real, tA: real, tB: real)
    requires ux * vy - uy * vx != 0.0
    requires tA * (ux * vy - uy * vx) == ax * vy - ay * vx
    requires tB * (ux * vy - uy * vx) == ax * uy - ay * ux
    ensures tA * ux - tB * vx == ax && tA * uy - tB * vy == ay
  {
    var d := ux * vy - uy * vx;
    assert (tA * ux - tB * vx) * d == (tA * d) * ux - (tB * d) * vx;
    assert (tA * ux - tB * vx) * d == ax * d;
    assert (tA * uy - tB * vy) * d == (tA * d) * uy - (tB * d) * vy;
    assert (tA * uy - tB * vy) * d == ay * d;
  }

  /** The solver's parameters are the only ones at which the two lines meet,
      and parallel directions always fail. */
  lemma Line2LineIntersectionUnique(originA: Vector2Real, directionA: Vector2Real,
                                    originB: Vector2Real, directionB: Vector2Real, s: real, t: real)
    requires Line2LineIntersection(originA, directionA, originB, directionB).Success?
    requires PointOnLine2(originA, directionA, s) == PointOnLine2(originB, directionB, t)
    ensures Line2LineIntersection(originA, directionA, originB, directionB).value == LineParameters(s, t)
  {
    var r := Line2LineIntersection(originA, directionA, originB, directionB);
    var a := Sub(originB, originA);
    assert s * directionA.X - t * directionB.X == a.X;
    assert s * directionA.Y - t * directionB.Y == a.Y;
    CramerUnique(a.X, a.Y, directionA.X, directionA.Y, directionB.X, directionB.Y, s, t, r.value.tA, r.value.tB);
  }

  /** The scalar core of `Line2LineIntersectionUnique`: a solution of
      `s * u - t * v == a` is the Cramer solution. */
  lemma CramerUnique(ax: real, ay: real, ux: real, uy: real, vx: real, vy: real, s: real, t: real, tA: real, tB: real)
    requires ux * vy - uy * vx != 0.0
    requires s * ux - t * vx == ax && s * uy - t * vy == ay
    requires tA * (ux * vy - uy * vx) == ax * vy - ay * vx
    requires tB * (ux * vy - uy * vx) == ax * uy - ay * ux
    ensures s == tA && t == tB
  {
    var d := ux * vy - uy * vx;
    assert ax * vy - ay * vx == (s * ux - t * vx) * vy - (s * uy - t * vy) * vx;
    assert s * d == ax * vy - ay * vx;
    assert ax * uy - ay * ux == (s * ux - t * vx) * uy - (s * uy - t * vy) * ux;
    assert t * d == ax * uy - ay * ux;
  }

  /** Parallel directions make the 2D solver fail, whatever the origins. */
  lemma ParallelLinesFail(originA: Vector2Real, directionA: Vector2Real, originB: Vector2Real, k: real)
    ensures Line2LineIntersection(originA, directionA, originB, Scale(directionA, k)).Failure?
  {
    CrossAntisymmetric(directionA, directionA, k);
  }

  /** The 2D solver as the library writes it: the same guard and parameters,
      but the returned vector is `directionA * tA + directionB * tB`, with no
      origin added, instead of the meeting point or the parameters. */
  function Line2LineIntersectionAsWritten(originA: Vector2Real, directionA: Vector2Real,
                                          originB: Vector2Real, directionB: Vector2Real): (r: Return<Vector2Real>)
    ensures r.Failure? <==> Line2LineIntersection(originA, directionA, originB, directionB).Failure?
    ensures r.Success? ==>
      var p := Line2LineIntersection(originA, directionA, originB, directionB).value;
      r.value == Add(Scale(directionA, p.tA), Scale(directionB, p.tB))
  {
    var d := Cross(directionA, directionB);
    if Abs(d) < PARALLEL_THRESHOLD then
      Failure
    else
      var a2b := Sub(originB, originA);
      var tA := Cross(a2b, directionB) / d;
      var tB := Cross(a2b, directionA) / d;
      Success(Add(Scale(directionA, tA), Scale(directionB, tB)))
  }

  /** The lines along (10, 0) from the origin and along (0, 10) from (5, -5)
      meet at (5, 0), half-way along each; the solver as written returns
      (5, 5). */
  lemma Line2LineIntersectionAsWrittenMisses()
    ensures Line2LineIntersection(ZERO, Vector2Real(10.0, 0.0), Vector2Real(5.0, -5.0), Vector2Real(0.0, 10.0))
         == Success(LineParameters(0.5, 0.5))
    ensures PointOnLine2(ZERO, Vector2Real(10.0, 0.0), 0.5) == Vector2Real(5.0, 0.0)
    ensures Line2LineIntersectionAsWritten(ZERO, Vector2Real(10.0, 0.0), Vector2Real(5.0, -5.0), Vector2Real(0.0, 10.0))
         == Success(Vector2Real(5.0, 5.0))
  {
    var r := Line2LineIntersection(ZERO, Vector2Real(10.0, 0.0), Vector2Real(5.0, -5.0), Vector2Real(0.0, 10.0));
    assert Cross(Vector2Real(10.0, 0.0), Vector2Real(0.0, 10.0)) == 100.0;
    assert Cross(Vector2Real(5.0, -5.0), Vector2Real(0.0, 10.0)) == 50.0;
    assert Cross(Vector2Real(5.0, -5.0), Vector2Real(10.0, 0.0)) == 50.0;
  }

  /** The point at parameter `t` of the 3D line through `origin` along `direction`. */
  function PointOnLine3(origin: Vector3.Vector3Real, direction: Vector3.Vector3Real, t: real): Vector3.Vector3Real
  {
    Vector3.Add(origin, Vector3.Scale(direction, t))
  }

  /** The five dot products of the 3D solver, named after the points of the
      closest-point construction: p1 = originA, p2 = originA + directionA,
      p3 = originB, p4 = originB + directionB, and `pij` = pi - pj, so that
      p21 is directionA, p43 is directionB and p13 is originA - originB. */
  datatype DotProducts = DotProducts(d1343: real, d4321: real, d1321: real, d4343: real, d2121: real)

  function Dots(originA: Vector3.Vector3Real, directionA: Vector3.Vector3Real,
                originB: Vector3.Vector3Real, directionB: Vector3.Vector3Real): DotProducts
  {
    var p13 := Vector3.Sub(originA, originB);
    DotProducts(Vector3.Dot(p13, directionB), Vector3.Dot(directionB, directionA), Vector3.Dot(p13, directionA),
                Vector3.Dot(directionB, directionB), Vector3.Dot(directionA, directionA))
  }

  /** The construction's differences p21 and p43 are the two directions. */
  lemma PointDifferences(originA: Vector3.Vector3Real, directionA: Vector3.Vector3Real,
                         originB: Vector3.Vector3Real, directionB: Vector3.Vector3Real)
    ensures Vector3.Sub(Vector3.Add(originA, directionA), originA) == directionA
    ensures Vector3.Sub(Vector3.Add(originB, directionB), originB) == directionB
  {
  }

  /** The denominator the library writes, `d2121 * d4343 - d1321 * d4343`;
      it has `d4343` as a factor. */
  function AsWrittenDenominator(d: DotProducts): (r: real)
    ensures r == d.d4343 * (d.d2121 - d.d1321)
  {
    d.d2121 * d.d4343 - d.d1321 * d.d4343
  }

  /** The denominator of the closest-point construction the library cites,
      `d2121 * d4343 - d4321 * d4321`. */
  function ClosestPointDenominator(d: DotProducts): real
  {
    d.d2121 * d.d4343 - d.d4321 * d.d4321
  }

  /** The scalar steps of the 3D solver as written: the guard on its
      denominator, `mua`, and `mub`. Passing the guard makes `d4343` non-zero,
      so the division that computes `mub` is safe. */
  function AsWrittenParameters(d: DotProducts, tolerance: Tolerance): (r: Return<LineParameters>)
    ensures r.Failure? <==> Scalar.IsNearlyEqual(AsWrittenDenominator(d), 0.0, tolerance)
    ensures r.Success? ==> d.d4343 != 0.0
    ensures r.Success? ==> r.value.tA * AsWrittenDenominator(d) == d.d1343 * d.d4321 - d.d1321 * d.d4343
    ensures r.Success? ==> r.value.tB * d.d4343 == d.d1343 + d.d4321 * r.value.tA
  {
    var denominator := AsWrittenDenominator(d);
    if Scalar.IsNearlyEqual(denominator, 0.0, tolerance) then
      Failure
    else
      var numerator := d.d1343 * d.d4321 - d.d1321 * d.d4343;
      var mua := numerator / denominator;
      var mub := (d.d1343 + d.d4321 * mua) / d.d4343;
      Success(LineParameters(mua, mub))
  }

  /** The 3D solver as written. It fails exactly when its denominator is
      within the tolerance of zero. On success it returns the point of line A
      at `mua`; the matching point of line B is computed and dropped, and
      nothing checks that the two coincide. */
  function Line3LineIntersectionAsWritten(originA: Vector3.Vector3Real, directionA: Vector3.Vector3Real,
                                          originB: Vector3.Vector3Real, directionB: Vector3.Vector3Real,
                                          tolerance: Tolerance): (r: Return<Vector3.Vector3Real>)
    ensures r.Failure? <==> Scalar.IsNearlyEqual(AsWrittenDenominator(Dots(originA, directionA, originB, directionB)), 0.0, tolerance)
    ensures r.Success? ==> var d := Dots(originA, directionA, originB, directionB);
      exists t :: t * AsWrittenDenominator(d) == d.d1343 * d.d4321 - d.d1321 * d.d4343
                  && r.value == PointOnLine3(originA, directionA, t)
  {
    match AsWrittenParameters(Dots(originA, directionA, originB, directionB), tolerance)
    case Failure => Failure
    case Success(p) => Success(PointOnLine3(originA, directionA, p.tA))
  }

  /** The scalar steps of the 3D solver with the closest-point denominator:
      it fails when either divisor is within the tolerance of zero, and
      otherwise `mua` and `mub` zero both gap dot products of
      `ClosestPointGap`. */
  function ClosestParameters(d: DotProducts, tolerance: Tolerance): (r: Return<LineParameters>)
    ensures r.Failure? <==>
      Scalar.IsNearlyEqual(ClosestPointDenominator(d), 0.0, tolerance) || Scalar.IsNearlyEqual(d.d4343, 0.0, tolerance)
    ensures r.Success? ==> d.d1321 + r.value.tA * d.d2121 - r.value.tB * d.d4321 == 0.0
    ensures r.Success? ==> d.d1343 + r.value.tA * d.d4321 - r.value.tB * d.d4343 == 0.0
  {
    var denominator := ClosestPointDenominator(d);
    if Scalar.IsNearlyEqual(denominator, 0.0, tolerance) || Scalar.IsNearlyEqual(d.d4343, 0.0, tolerance) then
      Failure
    else
      NotNearlyZero(denominator, tolerance);
      NotNearlyZero(d.d4343, tolerance);
      Success(ClosestSolution(d))
  }

  /** `mua` and `mub` of the closest-point construction, for non-zero
      divisors: they zero both gap dot products of `ClosestPointGap`. */
  function ClosestSolution(d: DotProducts): (p: LineParameters)
    requires ClosestPointDenominator(d) != 0.0 && d.d4343 != 0.0
    ensures d.d1321 + p.tA * d.d2121 - p.tB * d.d4321 == 0.0
    ensures d.d1343 + p.tA * d.d4321 - p.tB * d.d4343 == 0.0
  {
    var denominator := ClosestPointDenominator(d);
    var numerator := d.d1343 * d.d4321 - d.d1321 * d.d4343;
    var mua := numerator / denominator;
    var mub := (d.d1343 + d.d4321 * mua) / d.d4343;
    assert mua * denominator == numerator;
    assert mub * d.d4343 == d.d1343 + d.d4321 * mua;
    ClosestPointAlgebra(d.d1343, d.d4321, d.d1321, d.d4343, d.d2121, mua, mub);
    LineParameters(mua, mub)
  }

  /** The 3D solver with the closest-point denominator. It fails when either
      divisor is within the tolerance of zero, and otherwise returns the
      parameters of the two closest points, whose connecting vector is
      orthogonal to both directions. */
  function Line3LineIntersection(originA: Vector3.Vector3Real, directionA: Vector3.Vector3Real,
                                 originB: Vector3.Vector3Real, directionB: Vector3.Vector3Real,
                                 tolerance: Tolerance): (r: Return<LineParameters>)
    ensures r.Failure? <==> ClosestParameters(Dots(originA, directionA, originB, directionB), tolerance).Failure?
    ensures r.Success? ==>
      var gap := Vector3.Sub(PointOnLine3(originA, directionA, r.value.tA), PointOnLine3(originB, directionB, r.value.tB));
      Vector3.Dot(gap, directionA) == 0.0 && Vector3.Dot(gap, directionB) == 0.0
  {
    match ClosestParameters(Dots(originA, directionA, originB, directionB), tolerance)
    case Failure => Failure
    case Success(p) =>
      ClosestPointGap(originA, directionA, originB, directionB, p.tA, p.tB);
      Success(p)
  }

  /** The dot products of the gap between two line points with the two
      directions, in terms of the solver's dot products. */
  lemma ClosestPointGap(originA: Vector3.Vector3Real, directionA: Vector3.Vector3Real,
                        originB: Vector3.Vector3Real, directionB: Vector3.Vector3Real, s: real, t: real)
    ensures
      var d := Dots(originA, directionA, originB, directionB);
      var gap := Vector3.Sub(PointOnLine3(originA, directionA, s), PointOnLine3(originB, directionB, t));
      && Vector3.Dot(gap, directionA) == d.d1321 + s * d.d2121 - t * d.d4321
      && Vector3.Dot(gap, directionB) == d.d1343 + s * d.d4321 - t * d.d4343
  {
    var w := Vector3.Sub(originA, originB);
    GapComponents(originA, directionA, originB, directionB, s, t);
    GapDot(w, directionA, directionB, directionA, s, t);
    GapDot(w, directionA, directionB, directionB, s, t);
  }

  /** The gap between the points at `s` and `t` is `w + s * u - t * v`, with
      `w` the difference of the origins. */
  lemma GapComponents(originA: Vector3.Vector3Real, directionA: Vector3.Vector3Real,
                      originB: Vector3.Vector3Real, directionB: Vector3.Vector3Real, s: real, t: real)
    ensures
      var w, u, v := Vector3.Sub(originA, originB), directionA, directionB;
      Vector3.Sub(PointOnLine3(originA, directionA, s), PointOnLine3(originB, directionB, t))
      == Vector3.Vector3Real(w.X + s * u.X - t * v.X, w.Y + s * u.Y - t * v.Y, w.Z + s * u.Z - t * v.Z)
  {
    var a, b := PointOnLine3(originA, directionA, s), PointOnLine3(originB, directionB, t);
    assert a == Vector3.Vector3Real(originA.X + directionA.X * s, originA.Y + directionA.Y * s, originA.Z + directionA.Z * s);
    assert b == Vector3.Vector3Real(originB.X + directionB.X * t, originB.Y + directionB.Y * t, originB.Z + directionB.Z * t);
  }

  /** Linearity of the dot product over the gap `w + s * u - t * v`. */
  lemma GapDot(w: Vector3.Vector3Real, u: Vector3.Vector3Real, v: Vector3.Vector3Real, e: Vector3.Vector3Real, s: real, t: real)
    ensures Vector3.Dot(Vector3.Vector3Real(w.X + s * u.X - t * v.X, w.Y + s * u.Y - t * v.Y, w.Z + s * u.Z - t * v.Z), e)
         == Vector3.Dot(w, e) + s * Vector3.Dot(u, e) - t * Vector3.Dot(v, e)
  {
  }

  /** The scalar core of the closest-point property: with `mua` and `mub`
      solving the two divisions, both gap dot products vanish. */
  lemma ClosestPointAlgebra(d1343: real, d4321: real, d1321: real, d4343: real, d2121: real, mua: real, mub: real)
    requires d4343 != 0.0
    requires mua * (d2121 * d4343 - d4321 * d4321) == d1343 * d4321 - d1321 * d4343
    requires mub * d4343 == d1343 + d4321 * mua
    ensures d1321 + mua * d2121 - mub * d4321 == 0.0
    ensures d1343 + mua * d4321 - mub * d4343 == 0.0
  {
    var e := d1321 + mua * d2121 - mub * d4321;
    assert e * d4343 == d1321 * d4343 + mua * (d2121 * d4343) - (mub * d4343) * d4321;
    assert e * d4343 == mua * (d2121 * d4343 - d4321 * d4321) - (d1343 * d4321 - d1321 * d4343);
  }

  /** When two lines cross, at `s` on line A and `t` on line B, and the
      corrected 3D solver succeeds, its parameters are exactly `s` and `t`. */
  lemma Line3LineIntersectionUnique(originA: Vector3.Vector3Real, directionA: Vector3.Vector3Real,
                                    originB: Vector3.Vector3Real, directionB: Vector3.Vector3Real,
                                    tolerance: Tolerance, s: real, t: real)
    requires Line3LineIntersection(originA, directionA, originB, directionB, tolerance).Success?
    requires PointOnLine3(originA, directionA, s) == PointOnLine3(originB, directionB, t)
    ensures Line3LineIntersection(originA, directionA, originB, directionB, tolerance).value == LineParameters(s, t)
  {
    var d := Dots(originA, directionA, originB, directionB);
    var p := Line3LineIntersection(originA, directionA, originB, directionB, tolerance).value;
    ClosestPointGap(originA, directionA, originB, directionB, s, t);
    assert Vector3.Sub(PointOnLine3(originA, directionA, s), PointOnLine3(originB, directionB, t)) == Vector3.ZERO;
    ClosestPointGap(originA, directionA, originB, directionB, p.tA, p.tB);
    var denominator := ClosestPointDenominator(d);
    assert denominator != 0.0;
    LinearUnique(s - p.tA, t - p.tB, d.d2121, d.d4321, d.d4343);
  }

  /** A homogeneous 2x2 system `a x - b y = 0`, `b x - c y = 0` with
      non-zero determinant `a c - b b` has only the zero solution. */
  lemma LinearUnique(x: real, y: real, a: real, b: real, c: real)
    requires a * x - b * y == 0.0 && b * x - c * y == 0.0
    requires a * c - b * b != 0.0
    ensures x == 0.0 && y == 0.0
  {
    assert x * (a * c - b * b) == c * (a * x - b * y) - b * (b * x - c * y);
    assert y * (a * c - b * b) == b * (a * x - b * y) - a * (b * x - c * y);
  }

  /** Lines whose origins differ by exactly `directionA` cross: line A at
      -1 and line B at 0 both reach `originB`. Their denominator as written is
      exactly zero (`d1321 == d2121`), so the solver as written fails for every
      tolerance. With unit, perpendicular directions, such as line A through
      (1, 0, 0) along (1, 0, 0) and line B through the origin along (0, 1, 0),
      the closest-point denominator is 1 and the corrected solver succeeds. */
  lemma Line3LineIntersectionAsWrittenRejectsCrossingLines(originA: Vector3.Vector3Real, directionA: Vector3.Vector3Real,
                                                           originB: Vector3.Vector3Real, directionB: Vector3.Vector3Real,
                                                           tolerance: Tolerance)
    requires Vector3.Sub(originA, originB) == directionA
    requires Vector3.Dot(directionA, directionA) == 1.0 && Vector3.Dot(directionB, directionB) == 1.0
    requires Vector3.Dot(directionB, directionA) == 0.0 && tolerance < 1.0
    ensures PointOnLine3(originA, directionA, -1.0) == PointOnLine3(originB, directionB, 0.0)
    ensures Line3LineIntersectionAsWritten(originA, directionA, originB, directionB, tolerance).Failure?
    ensures Line3LineIntersection(originA, directionA, originB, directionB, tolerance).Success?
  {
    var d := Dots(originA, directionA, originB, directionB);
    assert d.d1321 == d.d2121 == 1.0;
    assert AsWrittenDenominator(d) == 0.0;
    assert ClosestPointDenominator(d) == 1.0;
  }
}
