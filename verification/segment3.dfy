/** `Segment3Real`: the 3D segment from `Begin` to `End`, with its own
    point-in-segment test and the segment-segment intersection built on the
    closest-point 3D line solver. */
module Segment3 {
  import opened Scalar
  import opened Vector3
  import Intersections

  datatype Segment3Real = Segment3Real(Begin: Vector3Real, End: Vector3Real)

  /** `Set(begin, end)`: overwrite both endpoints. */
  function Set(s: Segment3Real, begin: Vector3Real, end: Vector3Real): (r: Segment3Real)
    ensures r.Begin == begin && r.End == end
  {
    Segment3Real(begin, end)
  }

  /** `Set(other)`: copy both endpoints of another segment. */
  function SetFrom(s: Segment3Real, other: Segment3Real): (r: Segment3Real)
    ensures r.Begin == other.Begin && r.End == other.End
  {
    Segment3Real(other.Begin, other.End)
  }

  /** Both forms of `Set` keep nothing of the segment they overwrite, and
      setting a segment to its own endpoints changes nothing. */
  lemma SetOverwrites(a: Segment3Real, b: Segment3Real, begin: Vector3Real, end: Vector3Real)
    ensures Set(a, begin, end) == Set(b, begin, end)
    ensures SetFrom(a, b) == b
    ensures Set(a, a.Begin, a.End) == a
  {
  }

  /** `GetDirectionWithMagnitude`: the vector from `Begin` to `End`. */
  function DirectionWithMagnitude(s: Segment3Real): Vector3Real
  {
    Sub(s.End, s.Begin)
  }

  /** The direction carries `Begin` to `End`, and only it does. */
  lemma DirectionCarriesBeginToEnd(s: Segment3Real, d: Vector3Real)
    ensures Add(s.Begin, DirectionWithMagnitude(s)) == s.End
    ensures Add(s.Begin, d) == s.End ==> d == DirectionWithMagnitude(s)
  {
  }

  /** `PointAtUnclamped(t)`: the point of the segment's line at fraction `t`
      of the way from `Begin` to `End`; `t` may lie outside [0, 1]. */
  function PointAtUnclamped(s: Segment3Real, t: real): Vector3Real
  {
    Add(s.Begin, Scale(Sub(s.End, s.Begin), t))
  }

  /** The segment's points are those of the line from `Begin` along its
      direction, with `Begin` at 0 and `End` at 1. */
  lemma PointAtUnclampedLine(s: Segment3Real, t: real)
    ensures PointAtUnclamped(s, t) == Intersections.PointOnLine3(s.Begin, DirectionWithMagnitude(s), t)
    ensures PointAtUnclamped(s, 0.0) == s.Begin
    ensures PointAtUnclamped(s, 1.0) == s.End
  {
  }

  /** The fraction clamped into [0, 1]. */
  function Clamp01(t: real): (c: real)
    ensures 0.0 <= c <= 1.0
    ensures 0.0 <= t <= 1.0 ==> c == t
  {
    if t < 0.0 then 0.0 else if t > 1.0 then 1.0 else t
  }

  /** `PointAt(t)`: as `PointAtUnclamped` with the fraction clamped, so it
      stays on the segment and saturates at the endpoints. */
  function PointAt(s: Segment3Real, t: real): (p: Vector3Real)
    ensures 0.0 <= t <= 1.0 ==> p == PointAtUnclamped(s, t)
    ensures t <= 0.0 ==> p == s.Begin
    ensures t >= 1.0 ==> p == s.End
  {
    PointAtUnclamped(s, Clamp01(t))
  }

  /** `IsPointInside(point)`: every component of the cross product of the
      direction with the offset of the point is within the tolerance of
      zero, and the projection of the point on the direction lies between
      the two endpoints. */
  function IsPointInside(s: Segment3Real, point: Vector3Real, tolerance: Tolerance): (inside: bool)
    ensures !Vector3.IsNearlyEqual(Cross(DirectionWithMagnitude(s), Sub(point, s.Begin)), ZERO, tolerance) ==> !inside
    ensures Dot(DirectionWithMagnitude(s), Sub(point, s.Begin)) < 0.0 ==> !inside
    ensures Dot(DirectionWithMagnitude(s), Sub(point, s.Begin)) > LengthSquared(DirectionWithMagnitude(s)) ==> !inside
  {
    var ba := Sub(s.End, s.Begin);
    var ca := Sub(point, s.Begin);
    var cross := Cross(ba, ca);
    if !Vector3.IsNearlyEqual(cross, ZERO, tolerance) then
      false
    else
      var dot := Dot(ba, ca);
      if dot < 0.0 then
        false
      else
        var lengthSquared := LengthSquared(ba);
        dot <= lengthSquared
  }

  /** Every point of the segment, both endpoints included, is inside it. */
  lemma PointsBetweenInside(s: Segment3Real, t: real, tolerance: Tolerance)
    requires 0.0 <= t <= 1.0
    ensures IsPointInside(s, PointAtUnclamped(s, t), tolerance)
  {
    var ba := DirectionWithMagnitude(s);
    var ca := Sub(PointAtUnclamped(s, t), s.Begin);
    assert ca == Scale(ba, t);
    CrossScaledSelf(ba, t);
    var l := LengthSquared(ba);
    DotScaled(ba, ba, t);
    assert Dot(ba, ca) == t * l;
    FractionOfLength(t, l);
  }

  /** A point of the line beyond either end of a segment of non-zero length
      is not inside it. */
  lemma PointsBeyondOutside(s: Segment3Real, t: real, tolerance: Tolerance)
    requires LengthSquared(DirectionWithMagnitude(s)) != 0.0
    requires t < 0.0 || t > 1.0
    ensures !IsPointInside(s, PointAtUnclamped(s, t), tolerance)
  {
    var ba := DirectionWithMagnitude(s);
    var ca := Sub(PointAtUnclamped(s, t), s.Begin);
    assert ca == Scale(ba, t);
    var l := LengthSquared(ba);
    assert l > 0.0;
    DotScaled(ba, ba, t);
    var dot := Dot(ba, ca);
    assert dot == t * l;
    FractionOfLength(t, l);
    if t < 0.0 {
      assert dot < 0.0;
    } else {
      assert dot > l;
    }
  }

  /** A segment of zero length contains every point: its direction is the
      zero vector, so the cross product and the dot product with any offset
      are zero and both tests pass. */
  lemma DegenerateSegmentContainsEverything(s: Segment3Real, point: Vector3Real, tolerance: Tolerance)
    requires s.Begin == s.End
    ensures IsPointInside(s, point, tolerance)
  {
    var ba, ca := Sub(s.End, s.Begin), Sub(point, s.Begin);
    assert ba == ZERO;
    assert Cross(ba, ca) == ZERO;
    assert Vector3.IsNearlyEqual(Cross(ba, ca), ZERO, tolerance);
    assert Dot(ba, ca) == 0.0 && LengthSquared(ba) == 0.0;
  }

  /** `Begin` and `End` of every segment are inside it. */
  lemma EndpointsInside(s: Segment3Real, tolerance: Tolerance)
    ensures IsPointInside(s, s.Begin, tolerance)
    ensures IsPointInside(s, s.End, tolerance)
  {
    PointsBetweenInside(s, 0.0, tolerance);
    PointsBetweenInside(s, 1.0, tolerance);
  }

  /** Conversely, with a zero tolerance a point inside a segment of non-zero
      length is the point at some fraction in [0, 1]. */
  lemma InsideIsBetween(s: Segment3Real, point: Vector3Real)
    requires LengthSquared(DirectionWithMagnitude(s)) != 0.0
    requires IsPointInside(s, point, 0.0)
    ensures exists t :: 0.0 <= t <= 1.0 && point == PointAtUnclamped(s, t)
  {
    var ba := DirectionWithMagnitude(s);
    var ca := Sub(point, s.Begin);
    var l := LengthSquared(ba);
    var dot := Dot(ba, ca);
    assert Cross(ba, ca) == ZERO;
    var t := dot / l;
    assert t * l == dot;
    CollinearComponents(ba, ca, t);
    assert point == PointAtUnclamped(s, t);
  }

  /** The vector core of `InsideIsBetween`: a vector `c` with zero cross
      product against `b` is `b` scaled by its projection fraction, as
      `b x (b x c) = b (b . c) - c (b . b)`. */
  lemma CollinearComponents(b: Vector3Real, c: Vector3Real, t: real)
    requires Cross(b, c) == ZERO
    requires LengthSquared(b) != 0.0
    requires t * LengthSquared(b) == Dot(b, c)
    ensures c == Scale(b, t)
  {
    CollinearComponent(b.X, b.Y, b.Z, c.X, c.Y, c.Z, t);
    CollinearComponent(b.Y, b.Z, b.X, c.Y, c.Z, c.X, t);
    CollinearComponent(b.Z, b.X, b.Y, c.Z, c.X, c.Y, t);
  }

  /** One component of `CollinearComponents`, in scalars. */
  lemma CollinearComponent(b0: real, b1: real, b2: real, c0: real, c1: real, c2: real, t: real)
    requires b2 * c0 - b0 * c2 == 0.0 && b0 * c1 - b1 * c0 == 0.0
    requires b0 * b0 + b1 * b1 + b2 * b2 != 0.0
    requires t * (b0 * b0 + b1 * b1 + b2 * b2) == b0 * c0 + b1 * c1 + b2 * c2
    ensures c0 == b0 * t
  {
    var l := b0 * b0 + b1 * b1 + b2 * b2;
    assert c0 * l == (b0 * c0 + b1 * c1 + b2 * c2) * b0 + b2 * (b2 * c0 - b0 * c2) - b1 * (b0 * c1 - b1 * c0);
    assert c0 * l == (b0 * t) * l;
  }

  /** `Intersects(other)`: solve the two segments' lines for their closest
      points; on success take the point at `tA` of this segment and accept
      it only when it is inside both segments. */
  function Intersects(s: Segment3Real, other: Segment3Real, tolerance: Tolerance): (r: Return<Vector3Real>)
    ensures Intersections.Line3LineIntersection(s.Begin, DirectionWithMagnitude(s), other.Begin, DirectionWithMagnitude(other), tolerance).Failure?
            ==> r.Failure?
    ensures r.Success? ==> IsPointInside(s, r.value, tolerance) && IsPointInside(other, r.value, tolerance)
    ensures r.Success? ==>
      var p := Intersections.Line3LineIntersection(s.Begin, DirectionWithMagnitude(s), other.Begin, DirectionWithMagnitude(other), tolerance).value;
      r.value == PointAtUnclamped(s, p.tA)
  {
    match Intersections.Line3LineIntersection(s.Begin, DirectionWithMagnitude(s), other.Begin, DirectionWithMagnitude(other), tolerance)
    case Failure => Failure
    case Success(p) =>
      var point := PointAtUnclamped(s, p.tA);
      if IsPointInside(s, point, tolerance) && IsPointInside(other, point, tolerance) then Success(point) else Failure
  }

  /** For two segments of non-zero length whose lines cross, at fraction `u`
      of this segment and `v` of the other, and whose closest-point solve
      succeeds, `Intersects` succeeds exactly when both fractions lie in
      [0, 1], and then returns the crossing point. */
  lemma IntersectsExactlyWithinBoth(s: Segment3Real, other: Segment3Real, tolerance: Tolerance, u: real, v: real)
    requires Intersections.Line3LineIntersection(s.Begin, DirectionWithMagnitude(s), other.Begin, DirectionWithMagnitude(other), tolerance).Success?
    requires PointAtUnclamped(s, u) == PointAtUnclamped(other, v)
    requires LengthSquared(DirectionWithMagnitude(s)) != 0.0 && LengthSquared(DirectionWithMagnitude(other)) != 0.0
    ensures Intersects(s, other, tolerance).Success? <==> 0.0 <= u <= 1.0 && 0.0 <= v <= 1.0
    ensures Intersects(s, other, tolerance).Success? ==> Intersects(s, other, tolerance).value == PointAtUnclamped(s, u)
  {
    PointAtUnclampedLine(s, u);
    PointAtUnclampedLine(other, v);
    Intersections.Line3LineIntersectionUnique(s.Begin, DirectionWithMagnitude(s), other.Begin, DirectionWithMagnitude(other), tolerance, u, v);
    var point := PointAtUnclamped(s, u);
    if 0.0 <= u <= 1.0 {
      PointsBetweenInside(s, u, tolerance);
    } else {
      PointsBeyondOutside(s, u, tolerance);
    }
    if 0.0 <= v <= 1.0 {
      PointsBetweenInside(other, v, tolerance);
    } else {
      PointsBeyondOutside(other, v, tolerance);
    }
  }

  /** `IsEqual`: both endpoints are exactly equal. */
  function IsEqual(a: Segment3Real, b: Segment3Real): (eq: bool)
    ensures eq <==> a == b
  {
    a.Begin == b.Begin && a.End == b.End
  }

  /** `IsNearlyEqual`: both endpoints pass the component-wise tolerance test. */
  predicate IsNearlyEqual(a: Segment3Real, b: Segment3Real, tolerance: Tolerance)
  {
    Vector3.IsNearlyEqual(a.Begin, b.Begin, tolerance) && Vector3.IsNearlyEqual(a.End, b.End, tolerance)
  }

  /** Exact equality implies the tolerance test, a zero tolerance is exact
      equality, and the test is symmetric. */
  lemma NearlyEqualFacts(a: Segment3Real, b: Segment3Real, tolerance: Tolerance)
    ensures IsEqual(a, b) ==> IsNearlyEqual(a, b, tolerance)
    ensures IsNearlyEqual(a, b, 0.0) <==> IsEqual(a, b)
    ensures IsNearlyEqual(a, b, tolerance) <==> IsNearlyEqual(b, a, tolerance)
  {
  }

  /** `operator==`: the tolerance test (the library passes its default
      tolerance). */
  function Equals(a: Segment3Real, b: Segment3Real, tolerance: Tolerance): (eq: bool)
    ensures a == b ==> eq
    ensures eq <==> IsNearlyEqual(a, b, tolerance)
  {
    IsNearlyEqual(a, b, tolerance)
  }

  /** `operator!=`: the negation of `operator==`. */
  function NotEquals(a: Segment3Real, b: Segment3Real, tolerance: Tolerance): (ne: bool)
    ensures ne <==> !Equals(a, b, tolerance)
    ensures ne ==> a != b
  {
    !Equals(a, b, tolerance)
  }
}
