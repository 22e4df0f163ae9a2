/** `Segment2Real`: the 2D segment from `Begin` to `End`, with the free
    point-in-segment test `IsInside` and the segment-segment intersection
    built on the 2D line solver. */
module Segment2 {
  import opened Scalar
  import opened Vector2
  import Intersections

  datatype Segment2Real = Segment2Real(Begin: Vector2Real, End: Vector2Real)

  /** `Set(begin, end)`: overwrite both endpoints. */
  function Set(s: Segment2Real, begin: Vector2Real, end: Vector2Real): (r: Segment2Real)
    ensures r.Begin == begin && r.End == end
  {
    Segment2Real(begin, end)
  }

  /** `Set(other)`: copy both endpoints of another segment. */
  function SetFrom(s: Segment2Real, other: Segment2Real): (r: Segment2Real)
    ensures r.Begin == other.Begin && r.End == other.End
  {
    Segment2Real(other.Begin, other.End)
  }

  /** Both forms of `Set` keep nothing of the segment they overwrite, and
      setting a segment to its own endpoints changes nothing. */
  lemma SetOverwrites(a: Segment2Real, b: Segment2Real, begin: Vector2Real, end: Vector2Real)
    ensures Set(a, begin, end) == Set(b, begin, end)
    ensures SetFrom(a, b) == b
    ensures Set(a, a.Begin, a.End) == a
  {
  }

  /** `GetDirectionWithMagnitude`: the vector from `Begin` to `End`. */
  function DirectionWithMagnitude(s: Segment2Real): Vector2Real
  {
    Sub(s.End, s.Begin)
  }

  /** The direction carries `Begin` to `End`, and only it does. */
  lemma DirectionCarriesBeginToEnd(s: Segment2Real, d: Vector2Real)
    ensures Add(s.Begin, DirectionWithMagnitude(s)) == s.End
    ensures Add(s.Begin, d) == s.End ==> d == DirectionWithMagnitude(s)
  {
  }

  /** `PointAtUnclamped(t)`: the point of the segment's line at fraction `t`
      of the way from `Begin` to `End`; `t` may lie outside [0, 1]. */
  function PointAtUnclamped(s: Segment2Real, t: real): Vector2Real
  {
    Add(s.Begin, Scale(Sub(s.End, s.Begin), t))
  }

  /** The segment's points are those of the line from `Begin` along its
      direction, with `Begin` at 0 and `End` at 1. */
  lemma PointAtUnclampedLine(s: Segment2Real, t: real)
    ensures PointAtUnclamped(s, t) == Intersections.PointOnLine2(s.Begin, DirectionWithMagnitude(s), t)
    ensures PointAtUnclamped(s, 0.0) == s.Begin
    ensures PointAtUnclamped(s, 1.0) == s.End
  {
  }

  /** The fraction clamped into [0, 1]. */
  function Clamp01(t: real): (c: real)
    ensures 0.0 <= c <= 1.0
    ensures 0.0 <= t <= 1.0 ==> c == t
  {
    if t < 0.0 then 0.0 else if t > 1.0 then 1.0 else t
  }

  /** `PointAt(t)`: as `PointAtUnclamped` with the fraction clamped, so it
      stays on the segment and saturates at the endpoints. */
  function PointAt(s: Segment2Real, t: real): (p: Vector2Real)
    ensures 0.0 <= t <= 1.0 ==> p == PointAtUnclamped(s, t)
    ensures t <= 0.0 ==> p == s.Begin
    ensures t >= 1.0 ==> p == s.End
  {
    PointAtUnclamped(s, Clamp01(t))
  }

  /** The free `IsInside(segment, point)`: the point is collinear with the
      segment up to the tolerance, and its projection on the segment's
      direction lies between the two endpoints. */
  function IsInside(s: Segment2Real, point: Vector2Real, tolerance: Tolerance): (inside: bool)
    ensures !Scalar.IsNearlyEqual(Cross(DirectionWithMagnitude(s), Sub(point, s.Begin)), 0.0, tolerance) ==> !inside
    ensures Dot(DirectionWithMagnitude(s), Sub(point, s.Begin)) < 0.0 ==> !inside
    ensures Dot(DirectionWithMagnitude(s), Sub(point, s.Begin)) > LengthSquared(DirectionWithMagnitude(s)) ==> !inside
  {
    var ba := Sub(s.End, s.Begin);
    var ca := Sub(point, s.Begin);
    var cross := Cross(ba, ca);
    if !Scalar.IsNearlyEqual(cross, 0.0, tolerance) then
      false
    else
      var dot := Dot(ba, ca);
      if dot < 0.0 then
        false
      else
        var lengthSquared := LengthSquared(ba);
        dot <= lengthSquared
  }

  /** Every point of the segment, both endpoints included, is inside it. */
  lemma PointsBetweenInside(s: Segment2Real, t: real, tolerance: Tolerance)
    requires 0.0 <= t <= 1.0
    ensures IsInside(s, PointAtUnclamped(s, t), tolerance)
  {
    var ba := DirectionWithMagnitude(s);
    var ca := Sub(PointAtUnclamped(s, t), s.Begin);
    assert ca == Scale(ba, t);
    CrossAntisymmetric(ba, ba, t);
    var l := LengthSquared(ba);
    assert Dot(ba, ca) == t * l;
    FractionOfLength(t, l);
  }

  /** A point of the line beyond either end of a segment of non-zero length
      is not inside it. */
  lemma PointsBeyondOutside(s: Segment2Real, t: real, tolerance: Tolerance)
    requires LengthSquared(DirectionWithMagnitude(s)) != 0.0
    requires t < 0.0 || t > 1.0
    ensures !IsInside(s, PointAtUnclamped(s, t), tolerance)
  {
    var ba := DirectionWithMagnitude(s);
    var ca := Sub(PointAtUnclamped(s, t), s.Begin);
    assert ca == Scale(ba, t);
    var l := LengthSquared(ba);
    assert l > 0.0;
    var dot := Dot(ba, ca);
    assert dot == t * l;
    FractionOfLength(t, l);
    if t < 0.0 {
      assert dot < 0.0;
    } else {
      assert dot > l;
    }
  }

  /** A segment of zero length contains every point: its direction is the
      zero vector, so the cross product and the dot product with any offset
      are zero and both tests pass. */
  lemma DegenerateSegmentContainsEverything(s: Segment2Real, point: Vector2Real, tolerance: Tolerance)
    requires s.Begin == s.End
    ensures IsInside(s, point, tolerance)
  {
  }

  /** `Begin` and `End` of every segment are inside it. */
  lemma EndpointsInside(s: Segment2Real, tolerance: Tolerance)
    ensures IsInside(s, s.Begin, tolerance)
    ensures IsInside(s, s.End, tolerance)
  {
    PointsBetweenInside(s, 0.0, tolerance);
    PointsBetweenInside(s, 1.0, tolerance);
  }

  /** Conversely, with a zero tolerance a point inside a segment of non-zero
      length is the point at some fraction in [0, 1]. */
  lemma InsideIsBetween(s: Segment2Real, point: Vector2Real)
    requires LengthSquared(DirectionWithMagnitude(s)) != 0.0
    requires IsInside(s, point, 0.0)
    ensures exists t :: 0.0 <= t <= 1.0 && point == PointAtUnclamped(s, t)
  {
    var ba := DirectionWithMagnitude(s);
    var ca := Sub(point, s.Begin);
    var l := LengthSquared(ba);
    var dot := Dot(ba, ca);
    assert Cross(ba, ca) == 0.0;
    var t := dot / l;
    assert t * l == dot;
    CollinearComponents(ba.X, ba.Y, ca.X, ca.Y, t);
    assert ca == Scale(ba, t);
    assert point == PointAtUnclamped(s, t);
  }

  /** The scalar core of `InsideIsBetween`: a vector `c` with zero cross
      product against `b` is `b` scaled by its projection fraction. */
  lemma CollinearComponents(b0: real, b1: real, c0: real, c1: real, t: real)
    requires b0 * c1 - b1 * c0 == 0.0
    requires b0 * b0 + b1 * b1 != 0.0
    requires t * (b0 * b0 + b1 * b1) == b0 * c0 + b1 * c1
    ensures c0 == b0 * t && c1 == b1 * t
  {
    var l := b0 * b0 + b1 * b1;
    assert c0 * l == (b0 * c0 + b1 * c1) * b0 + b1 * (b1 * c0 - b0 * c1);
    assert c0 * l == (b0 * t) * l;
    assert c1 * l == (b0 * c0 + b1 * c1) * b1 + b0 * (b0 * c1 - b1 * c0);
    assert c1 * l == (b1 * t) * l;
  }

  /** `Intersects(other)`: solve the two segments' lines; on success take the
      point at `tA` of this segment and accept it only when it is inside both
      segments. */
  function Intersects(s: Segment2Real, other: Segment2Real, tolerance: Tolerance): (r: Return<Vector2Real>)
    ensures Intersections.Line2LineIntersection(s.Begin, DirectionWithMagnitude(s), other.Begin, DirectionWithMagnitude(other)).Failure?
            ==> r.Failure?
    ensures r.Success? ==> IsInside(s, r.value, tolerance) && IsInside(other, r.value, tolerance)
    ensures r.Success? ==>
      var p := Intersections.Line2LineIntersection(s.Begin, DirectionWithMagnitude(s), other.Begin, DirectionWithMagnitude(other)).value;
      r.value == PointAtUnclamped(s, p.tA) && r.value == PointAtUnclamped(other, p.tB)
  {
    match Intersections.Line2LineIntersection(s.Begin, DirectionWithMagnitude(s), other.Begin, DirectionWithMagnitude(other))
    case Failure => Failure
    case Success(p) =>
      var point := PointAtUnclamped(s, p.tA);
      if IsInside(s, point, tolerance) && IsInside(other, point, tolerance) then Success(point) else Failure
  }

  /** For two segments of non-zero length whose lines cross, `Intersects`
      succeeds exactly when the crossing lies within both segments (both
      line parameters in [0, 1]), and then returns the crossing point. */
  lemma IntersectsExactlyWithinBoth(s: Segment2Real, other: Segment2Real, tolerance: Tolerance)
    requires Intersections.Line2LineIntersection(s.Begin, DirectionWithMagnitude(s), other.Begin, DirectionWithMagnitude(other)).Success?
    requires LengthSquared(DirectionWithMagnitude(s)) != 0.0 && LengthSquared(DirectionWithMagnitude(other)) != 0.0
    ensures
      var p := Intersections.Line2LineIntersection(s.Begin, DirectionWithMagnitude(s), other.Begin, DirectionWithMagnitude(other)).value;
      && (Intersects(s, other, tolerance).Success? <==> 0.0 <= p.tA <= 1.0 && 0.0 <= p.tB <= 1.0)
      && (Intersects(s, other, tolerance).Success? ==> Intersects(s, other, tolerance).value == PointAtUnclamped(s, p.tA))
  {
    var p := Intersections.Line2LineIntersection(s.Begin, DirectionWithMagnitude(s), other.Begin, DirectionWithMagnitude(other)).value;
    PointAtUnclampedLine(s, p.tA);
    PointAtUnclampedLine(other, p.tB);
    var point := PointAtUnclamped(s, p.tA);
    assert point == PointAtUnclamped(other, p.tB);
    if 0.0 <= p.tA <= 1.0 {
      PointsBetweenInside(s, p.tA, tolerance);
    } else {
      PointsBeyondOutside(s, p.tA, tolerance);
    }
    if 0.0 <= p.tB <= 1.0 {
      PointsBetweenInside(other, p.tB, tolerance);
    } else {
      PointsBeyondOutside(other, p.tB, tolerance);
    }
  }

  /** The segment from (0, 0) to (10, 0) and a vertical segment at x = `x`
      from y = -5 to y = 5: `Intersects` succeeds exactly when `x` lies in
      [0, 10], and then returns the crossing point (x, 0). */
  lemma IntersectsVertical(a: Segment2Real, b: Segment2Real, x: real, tolerance: Tolerance)
    requires a == Segment2Real(ZERO, Vector2Real(10.0, 0.0))
    requires b == Segment2Real(Vector2Real(x, -5.0), Vector2Real(x, 5.0))
    ensures Intersects(a, b, tolerance).Success? <==> 0.0 <= x <= 10.0
    ensures Intersects(a, b, tolerance).Success? ==> Intersects(a, b, tolerance).value == Vector2Real(x, 0.0)
  {
    var t := x / 10.0;
    CrossingSolved(a, b, x, t);
    IntersectsExactlyWithinBoth(a, b, tolerance);
    var p := Intersections.Line2LineIntersection(a.Begin, DirectionWithMagnitude(a), b.Begin, DirectionWithMagnitude(b)).value;
    assert p.tA == t && p.tB == 0.5;
    assert 0.0 <= t <= 1.0 <==> 0.0 <= x <= 10.0;
  }

  /** The horizontal segment from the origin to (10, 0) and a vertical
      segment at x = `x` from y = -5 to y = 5: their lines cross at
      fraction `x / 10` of the first and half-way along the second. */
  lemma CrossingSolved(a: Segment2Real, b: Segment2Real, x: real, t: real)
    requires a == Segment2Real(ZERO, Vector2Real(10.0, 0.0))
    requires b == Segment2Real(Vector2Real(x, -5.0), Vector2Real(x, 5.0)) && t * 10.0 == x
    ensures LengthSquared(DirectionWithMagnitude(a)) == 100.0 && LengthSquared(DirectionWithMagnitude(b)) == 100.0
    ensures Intersections.Line2LineIntersection(a.Begin, DirectionWithMagnitude(a), b.Begin, DirectionWithMagnitude(b))
         == Success(Intersections.LineParameters(t, 0.5))
    ensures PointAtUnclamped(a, t) == Vector2Real(x, 0.0)
  {
    var da, db := DirectionWithMagnitude(a), DirectionWithMagnitude(b);
    assert da == Vector2Real(10.0, 0.0) && db == Vector2Real(0.0, 10.0);
    assert Cross(da, db) == 100.0;
    assert Intersections.PointOnLine2(a.Begin, da, t) == Vector2Real(x, 0.0) == Intersections.PointOnLine2(b.Begin, db, 0.5);
    Intersections.Line2LineIntersectionUnique(a.Begin, da, b.Begin, db, t, 0.5);
  }

  /** `IsEqual`: both endpoints are exactly equal. */
  function IsEqual(a: Segment2Real, b: Segment2Real): (eq: bool)
    ensures eq <==> a == b
  {
    a.Begin == b.Begin && a.End == b.End
  }

  /** `IsNearlyEqual`: both endpoints pass the component-wise tolerance test. */
  predicate IsNearlyEqual(a: Segment2Real, b: Segment2Real, tolerance: Tolerance)
  {
    Vector2.IsNearlyEqual(a.Begin, b.Begin, tolerance) && Vector2.IsNearlyEqual(a.End, b.End, tolerance)
  }

  /** Exact equality implies the tolerance test, a zero tolerance is exact
      equality, and the test is symmetric. */
  lemma NearlyEqualFacts(a: Segment2Real, b: Segment2Real, tolerance: Tolerance)
    ensures IsEqual(a, b) ==> IsNearlyEqual(a, b, tolerance)
    ensures IsNearlyEqual(a, b, 0.0) <==> IsEqual(a, b)
    ensures IsNearlyEqual(a, b, tolerance) <==> IsNearlyEqual(b, a, tolerance)
  {
  }

  /** `operator==`: the tolerance test (the library passes its default
      tolerance). */
  function Equals(a: Segment2Real, b: Segment2Real, tolerance: Tolerance): (eq: bool)
    ensures a == b ==> eq
    ensures eq <==> IsNearlyEqual(a, b, tolerance)
  {
    IsNearlyEqual(a, b, tolerance)
  }

  /** `operator!=`: the negation of `operator==`. */
  function NotEquals(a: Segment2Real, b: Segment2Real, tolerance: Tolerance): (ne: bool)
    ensures ne <==> !Equals(a, b, tolerance)
    ensures ne ==> a != b
  {
    !Equals(a, b, tolerance)
  }
}
