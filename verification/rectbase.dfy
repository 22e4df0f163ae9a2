/** What the two versions of `RectT` share: the four edge fields, the
    width/height/area measures, the corner getters, the 4-value
    `IntersectionResult` and the two classification cascades, which both
    versions write identically. */
module RectBase {
  import opened Scalar
  import opened Vector2

  /** `IntersectionResult`, declared in increasing order of containment. */
  datatype IntersectionResult = OUTSIDE | ON_THE_EDGE | PARTIALLY_INSIDE | FULLY_INSIDE

  /** The enumeration's declared order. */
  function Rank(r: IntersectionResult): nat
  {
    match r
    case OUTSIDE => 0
    case ON_THE_EDGE => 1
    case PARTIALLY_INSIDE => 2
    case FULLY_INSIDE => 3
  }

  /** `RectT<T>` over real scalars. Nothing ties the fields together: the
      newer `Set` orders them, but both parsers assign them directly. */
  datatype RectT = RectT(Left: real, Top: real, Right: real, Bottom: real)

  /** The result of a `FromString` call: whether it succeeded, and the
      rectangle's fields afterwards (a failing call may already have
      written some of them). */
  datatype Parsed = Parsed(ok: bool, rect: RectT)

  function GetWidth(r: RectT): (w: real)
    ensures w >= 0.0
    ensures w == 0.0 <==> r.Left == r.Right
  {
    Abs(r.Right - r.Left)
  }

  function GetHeight(r: RectT): (h: real)
    ensures h >= 0.0
    ensures h == 0.0 <==> r.Top == r.Bottom
  {
    Abs(r.Bottom - r.Top)
  }

  function GetSize(r: RectT): Vector2Real
  {
    Vector2Real(GetWidth(r), GetHeight(r))
  }

  /** Width times height: never negative, and zero exactly for a rectangle
      with no width or no height. */
  function GetArea(r: RectT): (a: real)
    ensures a >= 0.0
    ensures a == 0.0 <==> r.Left == r.Right || r.Top == r.Bottom
  {
    ProductOfMeasures(GetWidth(r), GetHeight(r));
    GetWidth(r) * GetHeight(r)
  }

  lemma ProductOfMeasures(w: real, h: real)
    requires w >= 0.0 && h >= 0.0
    ensures w * h >= 0.0
    ensures w * h == 0.0 <==> w == 0.0 || h == 0.0
  {
    if w > 0.0 && h > 0.0 {
      assert w * h > 0.0;
    }
  }

  function GetLT(r: RectT): Vector2Real { Vector2Real(r.Left, r.Top) }
  function GetRT(r: RectT): Vector2Real { Vector2Real(r.Right, r.Top) }
  function GetLB(r: RectT): Vector2Real { Vector2Real(r.Left, r.Bottom) }
  function GetRB(r: RectT): Vector2Real { Vector2Real(r.Right, r.Bottom) }

  /** The rectangle spans its edges in the orientation the newer `Set`
      establishes: Left at most Right and Bottom at most Top. */
  predicate IsOriented(r: RectT)
  {
    r.Left <= r.Right && r.Bottom <= r.Top
  }

  /** The point cascade after the emptiness test: strictly between both
      pairs of edges is `FULLY_INSIDE`; on a vertical edge line within
      Bottom..Top, or on a horizontal edge line within Left..Right, is
      `ON_THE_EDGE`; everything else is `OUTSIDE`. */
  function ClassifyPoint(r: RectT, x: real, y: real): (c: IntersectionResult)
    ensures c != PARTIALLY_INSIDE
  {
    if r.Left < x && r.Right > x && r.Top > y && r.Bottom < y then FULLY_INSIDE
    else if ((r.Left == x || r.Right == x) && r.Top >= y && r.Bottom <= y)
         || ((r.Top == y || r.Bottom == y) && r.Left <= x && r.Right >= x) then ON_THE_EDGE
    else OUTSIDE
  }

  /** On an oriented rectangle the cascade is the usual geometry: the open
      interior is `FULLY_INSIDE`, the rest of the closed box is
      `ON_THE_EDGE`, and everything outside the closed box is `OUTSIDE`. */
  lemma ClassifyPointGeometry(r: RectT, x: real, y: real)
    ensures IsOriented(r) ==>
      && (ClassifyPoint(r, x, y) == FULLY_INSIDE <==> r.Left < x < r.Right && r.Bottom < y < r.Top)
      && (ClassifyPoint(r, x, y) == ON_THE_EDGE
          <==> (r.Left <= x <= r.Right && r.Bottom <= y <= r.Top) && !(r.Left < x < r.Right && r.Bottom < y < r.Top))
      && (ClassifyPoint(r, x, y) == OUTSIDE <==> !(r.Left <= x <= r.Right && r.Bottom <= y <= r.Top))
  {
  }

  /** A corner lies on the edge exactly when the rectangle is oriented along
      at least one axis; a rectangle reversed along both axes does not
      contain its own corners. */
  lemma CornerClassification(r: RectT, p: Vector2Real)
    requires p == GetLT(r) || p == GetRT(r) || p == GetLB(r) || p == GetRB(r)
    requires r.Left != r.Right && r.Top != r.Bottom
    ensures ClassifyPoint(r, p.X, p.Y)
         == if r.Left <= r.Right || r.Bottom <= r.Top then ON_THE_EDGE else OUTSIDE
  {
  }

  /** The rectangle cascade over the four corner classifications of the
      other rectangle, taken in the order LT, LB, RT, RB. */
  function CombineCorners(lt: IntersectionResult, lb: IntersectionResult,
                          rt: IntersectionResult, rb: IntersectionResult): IntersectionResult
  {
    if lt == FULLY_INSIDE && lb == FULLY_INSIDE && rt == FULLY_INSIDE && rb == FULLY_INSIDE then FULLY_INSIDE
    else if lt == FULLY_INSIDE || lb == FULLY_INSIDE || rt == FULLY_INSIDE || rb == FULLY_INSIDE then PARTIALLY_INSIDE
    else if lt == ON_THE_EDGE || lb == ON_THE_EDGE || rt == ON_THE_EDGE || rb == ON_THE_EDGE then ON_THE_EDGE
    else OUTSIDE
  }

  function Max(a: nat, b: nat): nat { if a < b then b else a }
  function Min(a: nat, b: nat): nat { if a < b then a else b }

  /** Over point classifications, which are never `PARTIALLY_INSIDE`, the
      cascade is decided by the best and the worst corner: all four fully
      inside gives `FULLY_INSIDE`, some but not all gives
      `PARTIALLY_INSIDE`, and otherwise the best corner's class. */
  lemma CombineCornersByRank(lt: IntersectionResult, lb: IntersectionResult,
                             rt: IntersectionResult, rb: IntersectionResult)
    requires lt != PARTIALLY_INSIDE && lb != PARTIALLY_INSIDE
    requires rt != PARTIALLY_INSIDE && rb != PARTIALLY_INSIDE
    ensures var best := Max(Max(Rank(lt), Rank(lb)), Max(Rank(rt), Rank(rb)));
      var worst := Min(Min(Rank(lt), Rank(lb)), Min(Rank(rt), Rank(rb)));
      && (CombineCorners(lt, lb, rt, rb) == FULLY_INSIDE <==> worst == 3)
      && (CombineCorners(lt, lb, rt, rb) == PARTIALLY_INSIDE <==> best == 3 && worst < 3)
      && (best < 3 ==> Rank(CombineCorners(lt, lb, rt, rb)) == best)
  {
  }

  /** The corners of `other` classified against `r`, combined. */
  function ClassifyRect(r: RectT, other: RectT): IntersectionResult
  {
    CombineCorners(ClassifyPoint(r, other.Left, other.Top), ClassifyPoint(r, other.Left, other.Bottom),
                   ClassifyPoint(r, other.Right, other.Top), ClassifyPoint(r, other.Right, other.Bottom))
  }

  /** Between oriented rectangles, `FULLY_INSIDE` is strict containment:
      every edge of `other` lies strictly inside `r`. */
  lemma ClassifyRectFullyInside(r: RectT, other: RectT)
    ensures IsOriented(r) && IsOriented(other) ==>
      (ClassifyRect(r, other) == FULLY_INSIDE
       <==> r.Left < other.Left && other.Right < r.Right && r.Bottom < other.Bottom && other.Top < r.Top)
  {
    ClassifyPointGeometry(r, other.Left, other.Top);
    ClassifyPointGeometry(r, other.Left, other.Bottom);
    ClassifyPointGeometry(r, other.Right, other.Top);
    ClassifyPointGeometry(r, other.Right, other.Bottom);
  }

  /** A rectangle tested against itself: every corner is on the edge when it
      is oriented along some axis, so the cascade answers `ON_THE_EDGE`;
      reversed along both axes it answers `OUTSIDE`. */
  lemma ClassifySelf(r: RectT)
    requires r.Left != r.Right && r.Top != r.Bottom
    ensures ClassifyRect(r, r) == if r.Left <= r.Right || r.Bottom <= r.Top then ON_THE_EDGE else OUTSIDE
  {
    CornerClassification(r, GetLT(r));
    CornerClassification(r, GetLB(r));
    CornerClassification(r, GetRT(r));
    CornerClassification(r, GetRB(r));
  }
}
