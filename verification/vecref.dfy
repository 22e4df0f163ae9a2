/** Swizzle views: the `Vector*Ref` structs hold references to some of a
    vector's components, so a write through the view lands on exactly those
    components; the `Vector*CRef` structs hold copies of them, in the order
    the view names them. A view is modelled as a lens: `View` reads the
    named components, `Write` stores new values into them. */
module VecRef {
  import Vector3
  import Vector4

  /** A component of a vector, in declaration order. */
  datatype Field = X | Y | Z | W

  /** The views the library defines: the six pairs, the four triples, and
      `Vector4Ref`, which names all four components. */
  datatype Swizzle = XY | XZ | XW | YZ | YW | ZW | XYZ | XYW | XZW | YZW | XYZW

  /** Position of a component in declaration order. */
  function Rank(f: Field): nat
  {
    match f
    case X => 0
    case Y => 1
    case Z => 2
    case W => 3
  }

  /** The components a view names, in the order of its struct's members:
      always increasing in declaration order, hence without repetition. */
  function Fields(s: Swizzle): (fs: seq<Field>)
    ensures 2 <= |fs| <= 4
    ensures forall i, j :: 0 <= i < j < |fs| ==> Rank(fs[i]) < Rank(fs[j])
  {
    match s
    case XY => [X, Y]
    case XZ => [X, Z]
    case XW => [X, W]
    case YZ => [Y, Z]
    case YW => [Y, W]
    case ZW => [Z, W]
    case XYZ => [X, Y, Z]
    case XYW => [X, Y, W]
    case XZW => [X, Z, W]
    case YZW => [Y, Z, W]
    case XYZW => [X, Y, Z, W]
  }

  /** No component appears twice in a sequence. */
  predicate Distinct(fs: seq<Field>)
  {
    forall i, j :: 0 <= i < j < |fs| ==> fs[i] != fs[j]
  }

  /** Reading one component of a 4-vector. */
  function Get(v: Vector4.Vector4Real, f: Field): real
  {
    match f
    case X => v.X
    case Y => v.Y
    case Z => v.Z
    case W => v.W
  }

  /** Writing one component of a 4-vector through its reference. */
  function Put(v: Vector4.Vector4Real, f: Field, x: real): (r: Vector4.Vector4Real)
    ensures Get(r, f) == x
    ensures forall g :: g != f ==> Get(r, g) == Get(v, g)
  {
    match f
    case X => v.(X := x)
    case Y => v.(Y := x)
    case Z => v.(Z := x)
    case W => v.(W := x)
  }

  /** A 4-vector is determined by its four components. */
  lemma Extensionality(a: Vector4.Vector4Real, b: Vector4.Vector4Real)
    requires forall f :: Get(a, f) == Get(b, f)
    ensures a == b
  {
    assert Get(a, X) == Get(b, X) && Get(a, Y) == Get(b, Y);
    assert Get(a, Z) == Get(b, Z) && Get(a, W) == Get(b, W);
  }

  /** The const view: copies of the named components, in the named order. */
  function ViewFields(v: Vector4.Vector4Real, fs: seq<Field>): (r: seq<real>)
    ensures |r| == |fs|
    ensures forall i :: 0 <= i < |fs| ==> r[i] == Get(v, fs[i])
  {
    if fs == [] then [] else [Get(v, fs[0])] + ViewFields(v, fs[1..])
  }

  /** Assignment through the mutable view: each named component receives
      the value in the same position. */
  function WriteFields(v: Vector4.Vector4Real, fs: seq<Field>, values: seq<real>): (r: Vector4.Vector4Real)
    requires |values| == |fs|
    ensures forall g :: g !in fs ==> Get(r, g) == Get(v, g)
    ensures Distinct(fs) ==> forall i :: 0 <= i < |fs| ==> Get(r, fs[i]) == values[i]
    decreases |fs|
  {
    if fs == [] then v
    else
      var r := WriteFields(Put(v, fs[0], values[0]), fs[1..], values[1..]);
      assert Distinct(fs) ==> Distinct(fs[1..]) && fs[0] !in fs[1..];
      r
  }

  /** Writing back what was just read changes nothing. */
  lemma {:induction false} WriteBackUnchanged(v: Vector4.Vector4Real, fs: seq<Field>)
    ensures WriteFields(v, fs, ViewFields(v, fs)) == v
    decreases |fs|
  {
    if fs != [] {
      assert Put(v, fs[0], Get(v, fs[0])) == v;
      assert ViewFields(v, fs)[1..] == ViewFields(v, fs[1..]);
      WriteBackUnchanged(v, fs[1..]);
    }
  }

  /** The view of a 4-vector. */
  function View(v: Vector4.Vector4Real, s: Swizzle): (r: seq<real>)
    ensures |r| == |Fields(s)|
    ensures forall i :: 0 <= i < |r| ==> r[i] == Get(v, Fields(s)[i])
  {
    ViewFields(v, Fields(s))
  }

  /** A write through the view of a 4-vector. */
  function Write(v: Vector4.Vector4Real, s: Swizzle, values: seq<real>): (r: Vector4.Vector4Real)
    requires |values| == |Fields(s)|
    ensures forall g :: g !in Fields(s) ==> Get(r, g) == Get(v, g)
  {
    WriteFields(v, Fields(s), values)
  }

  /** Put-get: reading a view after writing through it yields what was
      written. */
  lemma PutGet(v: Vector4.Vector4Real, s: Swizzle, values: seq<real>)
    requires |values| == |Fields(s)|
    ensures View(Write(v, s, values), s) == values
  {
  }

  /** Get-put: writing back what a view reads leaves the vector unchanged. */
  lemma GetPut(v: Vector4.Vector4Real, s: Swizzle)
    ensures Write(v, s, View(v, s)) == v
  {
    WriteBackUnchanged(v, Fields(s));
  }

  /** Put-put: a second write through the same view overrides the first. */
  lemma PutPut(v: Vector4.Vector4Real, s: Swizzle, first: seq<real>, second: seq<real>)
    requires |first| == |Fields(s)| && |second| == |Fields(s)|
    ensures Write(Write(v, s, first), s, second) == Write(v, s, second)
  {
    var a, b := Write(Write(v, s, first), s, second), Write(v, s, second);
    forall f
      ensures Get(a, f) == Get(b, f)
    {
      if f in Fields(s) {
        var i :| 0 <= i < |Fields(s)| && Fields(s)[i] == f;
      }
    }
    Extensionality(a, b);
  }

  /** Writes through two views with no component in common commute. */
  lemma DisjointWritesCommute(v: Vector4.Vector4Real, s: Swizzle, t: Swizzle, a: seq<real>, b: seq<real>)
    requires |a| == |Fields(s)| && |b| == |Fields(t)|
    requires forall f :: f in Fields(s) ==> f !in Fields(t)
    ensures Write(Write(v, s, a), t, b) == Write(Write(v, t, b), s, a)
  {
    var l, r := Write(Write(v, s, a), t, b), Write(Write(v, t, b), s, a);
    forall f
      ensures Get(l, f) == Get(r, f)
    {
      if f in Fields(s) {
        var i :| 0 <= i < |Fields(s)| && Fields(s)[i] == f;
      } else if f in Fields(t) {
        var i :| 0 <= i < |Fields(t)| && Fields(t)[i] == f;
      }
    }
    Extensionality(l, r);
  }

  /** `Vector4Ref`, the view the 4x4 matrix uses for its columns, aliases
      all four components in order: writing through it replaces the whole
      vector and reading it lists the whole vector. */
  lemma WholeVectorView(v: Vector4.Vector4Real, x: real, y: real, z: real, w: real)
    ensures Write(v, XYZW, [x, y, z, w]) == Vector4.Vector4Real(x, y, z, w)
    ensures View(v, XYZW) == [v.X, v.Y, v.Z, v.W]
  {
    var r := Write(v, XYZW, [x, y, z, w]);
    assert Get(r, Fields(XYZW)[0]) == x && Get(r, Fields(XYZW)[1]) == y;
    assert Get(r, Fields(XYZW)[2]) == z && Get(r, Fields(XYZW)[3]) == w;
  }

  /** The views a 3-vector defines (`DEF_SWIZZLE_VEC3`). */
  const VEC3_SWIZZLES: set<Swizzle> := {XY, XZ, YZ}

  /** The views a 4-vector defines (`DEF_SWIZZLE_VEC4`). */
  const VEC4_SWIZZLES: set<Swizzle> := {XY, XZ, XW, YZ, YW, ZW, XYZ, XYW, XZW, YZW}

  /** A 3-vector gets exactly the pairs that avoid `W`; a 4-vector gets
      exactly the pairs and the triples. */
  lemma SwizzleSets(s: Swizzle)
    ensures s in VEC3_SWIZZLES <==> |Fields(s)| == 2 && W !in Fields(s)
    ensures s in VEC4_SWIZZLES <==> |Fields(s)| <= 3
  {
  }

  /** A 3-vector seen as the `X`, `Y`, `Z` of a 4-vector. */
  function Widen(v: Vector3.Vector3Real): Vector4.Vector4Real
  {
    Vector4.Vector4Real(v.X, v.Y, v.Z, 0.0)
  }

  /** Dropping the `W` of a 4-vector. */
  function Narrow(v: Vector4.Vector4Real): Vector3.Vector3Real
  {
    Vector3.Vector3Real(v.X, v.Y, v.Z)
  }

  /** The view of a 3-vector: the same components of its widening. */
  function View3(v: Vector3.Vector3Real, s: Swizzle): (r: seq<real>)
    requires s in VEC3_SWIZZLES
    ensures |r| == 2
    ensures r[0] == Get(Widen(v), Fields(s)[0]) && r[1] == Get(Widen(v), Fields(s)[1])
  {
    View(Widen(v), s)
  }

  /** A write through the view of a 3-vector. */
  function Write3(v: Vector3.Vector3Real, s: Swizzle, values: seq<real>): (r: Vector3.Vector3Real)
    requires s in VEC3_SWIZZLES && |values| == 2
    ensures forall g :: g != W && g !in Fields(s) ==> Get(Widen(r), g) == Get(Widen(v), g)
  {
    Narrow(Write(Widen(v), s, values))
  }

  /** Put-get and get-put for the views of a 3-vector. */
  lemma Vector3Lens(v: Vector3.Vector3Real, s: Swizzle, values: seq<real>)
    requires s in VEC3_SWIZZLES && |values| == 2
    ensures View3(Write3(v, s, values), s) == values
    ensures Write3(v, s, View3(v, s)) == v
  {
    var written := Write(Widen(v), s, values);
    assert W !in Fields(s);
    assert Widen(Narrow(written)) == written;
    PutGet(Widen(v), s, values);
    GetPut(Widen(v), s);
  }
}
