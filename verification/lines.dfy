/** `Line2Real`: an infinite 2D line given by a point and a direction. The
    direction need not be normalized. */
module Line2 {
  import opened Scalar
  import opened Vector2

  datatype Line2Real = Line2Real(Origin: Vector2Real, Direction: Vector2Real)

  /** The default constructor: the line through the origin pointing along the
      unit vector (0, 1). */
  function Default(): (l: Line2Real)
    ensures l.Origin == ZERO
    ensures l.Direction.X == 0.0 && l.Direction.Y > 0.0 && LengthSquared(l.Direction) == 1.0
  {
    Line2Real(ZERO, Vector2Real(0.0, 1.0))
  }

  /** `Set(origin, direction)`: overwrite both fields. */
  function Set(l: Line2Real, origin: Vector2Real, direction: Vector2Real): (r: Line2Real)
    ensures r.Origin == origin && r.Direction == direction
  {
    Line2Real(origin, direction)
  }

  /** `Set` keeps nothing of the line it overwrites, and setting a line to its
      own fields changes nothing. */
  lemma SetOverwrites(a: Line2Real, b: Line2Real, origin: Vector2Real, direction: Vector2Real)
    ensures Set(a, origin, direction) == Set(b, origin, direction)
    ensures Set(a, a.Origin, a.Direction) == a
  {
  }

  /** `IsEqual`: both fields are exactly equal. */
  function IsEqual(a: Line2Real, b: Line2Real): (eq: bool)
    ensures eq <==> a == b
  {
    a.Origin == b.Origin && a.Direction == b.Direction
  }

  /** `IsNearlyEqual`: both fields pass the component-wise tolerance test. */
  predicate IsNearlyEqual(a: Line2Real, b: Line2Real, tolerance: Tolerance)
  {
    Vector2.IsNearlyEqual(a.Origin, b.Origin, tolerance) && Vector2.IsNearlyEqual(a.Direction, b.Direction, tolerance)
  }

  /** Exact equality implies the tolerance test, a zero tolerance is exact
      equality, and the test is symmetric. */
  lemma NearlyEqualFacts(a: Line2Real, b: Line2Real, tolerance: Tolerance)
    ensures IsEqual(a, b) ==> IsNearlyEqual(a, b, tolerance)
    ensures IsNearlyEqual(a, b, 0.0) <==> IsEqual(a, b)
    ensures IsNearlyEqual(a, b, tolerance) <==> IsNearlyEqual(b, a, tolerance)
  {
  }

  /** `operator==`: the tolerance test (the library passes its default
      tolerance). Equal lines always compare equal. */
  function Equals(a: Line2Real, b: Line2Real, tolerance: Tolerance): (eq: bool)
    ensures a == b ==> eq
    ensures eq <==> IsNearlyEqual(a, b, tolerance)
  {
    IsNearlyEqual(a, b, tolerance)
  }

  /** `operator!=`: the negation of `operator==`. */
  function NotEquals(a: Line2Real, b: Line2Real, tolerance: Tolerance): (ne: bool)
    ensures ne <==> !Equals(a, b, tolerance)
    ensures ne ==> a != b
  {
    !Equals(a, b, tolerance)
  }
}

/** `Line3Real`: an infinite 3D line given by a point and a direction. */
module Line3 {
  import opened Scalar
  import opened Vector3

  datatype Line3Real = Line3Real(Origin: Vector3Real, Direction: Vector3Real)

  /** The default constructor: the line through the origin pointing along the
      unit vector (0, 1, 0). */
  function Default(): (l: Line3Real)
    ensures l.Origin == ZERO
    ensures l.Direction.X == 0.0 && l.Direction.Y > 0.0 && l.Direction.Z == 0.0 && LengthSquared(l.Direction) == 1.0
  {
    Line3Real(ZERO, Vector3Real(0.0, 1.0, 0.0))
  }

  /** `Set(origin, direction)`: overwrite both fields. */
  function Set(l: Line3Real, origin: Vector3Real, direction: Vector3Real): (r: Line3Real)
    ensures r.Origin == origin && r.Direction == direction
  {
    Line3Real(origin, direction)
  }

  /** `Set` keeps nothing of the line it overwrites, and setting a line to its
      own fields changes nothing. */
  lemma SetOverwrites(a: Line3Real, b: Line3Real, origin: Vector3Real, direction: Vector3Real)
    ensures Set(a, origin, direction) == Set(b, origin, direction)
    ensures Set(a, a.Origin, a.Direction) == a
  {
  }

  /** `IsEqual`: both fields are exactly equal. */
  function IsEqual(a: Line3Real, b: Line3Real): (eq: bool)
    ensures eq <==> a == b
  {
    a.Origin == b.Origin && a.Direction == b.Direction
  }

  /** `IsNearlyEqual`: both fields pass the component-wise tolerance test. */
  predicate IsNearlyEqual(a: Line3Real, b: Line3Real, tolerance: Tolerance)
  {
    Vector3.IsNearlyEqual(a.Origin, b.Origin, tolerance) && Vector3.IsNearlyEqual(a.Direction, b.Direction, tolerance)
  }

  /** Exact equality implies the tolerance test, a zero tolerance is exact
      equality, and the test is symmetric. */
  lemma NearlyEqualFacts(a: Line3Real, b: Line3Real, tolerance: Tolerance)
    ensures IsEqual(a, b) ==> IsNearlyEqual(a, b, tolerance)
    ensures IsNearlyEqual(a, b, 0.0) <==> IsEqual(a, b)
    ensures IsNearlyEqual(a, b, tolerance) <==> IsNearlyEqual(b, a, tolerance)
  {
  }

  /** `operator==`: the tolerance test (the library passes its default
      tolerance). Equal lines always compare equal. */
  function Equals(a: Line3Real, b: Line3Real, tolerance: Tolerance): (eq: bool)
    ensures a == b ==> eq
    ensures eq <==> IsNearlyEqual(a, b, tolerance)
  {
    IsNearlyEqual(a, b, tolerance)
  }

  /** `operator!=`: the negation of `operator==`. */
  function NotEquals(a: Line3Real, b: Line3Real, tolerance: Tolerance): (ne: bool)
    ensures ne <==> !Equals(a, b, tolerance)
    ensures ne ==> a != b
  {
    !Equals(a, b, tolerance)
  }
}
