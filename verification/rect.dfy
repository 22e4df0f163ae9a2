/** The current `RectT` (`Public/Rect.h`): a rectangle given by its four
    edges, kept oriented by `Set`, with `area <= 0` as its emptiness test and
    the text form `[Left, Top](Right, Bottom)`. */
module Rect {
  import opened Scalar
  import opened Vector2
  import opened RectBase
  import opened RectText

  /** `Set(left, top, right, bottom)` and the four-argument constructor:
      the edges are stored, then swapped where needed so that Left is the
      smaller horizontal edge and Top the larger vertical one. */
  function Make(left: real, top: real, right: real, bottom: real): (r: RectT)
    ensures IsOriented(r)
    ensures multiset{r.Left, r.Right} == multiset{left, right}
    ensures multiset{r.Top, r.Bottom} == multiset{top, bottom}
  {
    var (l, rt) := if left > right then (right, left) else (left, right);
    var (t, b) := if top < bottom then (bottom, top) else (top, bottom);
    RectT(l, t, rt, b)
  }

  /** Setting an oriented rectangle from its own fields changes nothing, so
      `Set` is idempotent. */
  lemma MakeIdempotent(r: RectT, left: real, top: real, right: real, bottom: real)
    ensures IsOriented(r) ==> Make(r.Left, r.Top, r.Right, r.Bottom) == r
    ensures var s := Make(left, top, right, bottom);
      Make(s.Left, s.Top, s.Right, s.Bottom) == s
  {
  }

  /** `IsEmpty`: the area is at most zero, which happens exactly when the
      rectangle has no width or no height. */
  predicate IsEmpty(r: RectT)
  {
    GetArea(r) <= 0.0
  }

  lemma IsEmptyIffDegenerate(r: RectT)
    ensures IsEmpty(r) <==> GetWidth(r) == 0.0 || GetHeight(r) == 0.0
  {
  }

  /** `IsInside(x, y)`: an empty rectangle contains nothing; otherwise the
      shared point cascade decides. */
  function IsInsidePoint(r: RectT, x: real, y: real): (c: IntersectionResult)
    ensures IsEmpty(r) ==> c == OUTSIDE
    ensures c != PARTIALLY_INSIDE
    ensures IsOriented(r) && !IsEmpty(r) ==>
      && (c == FULLY_INSIDE <==> r.Left < x < r.Right && r.Bottom < y < r.Top)
      && (c == OUTSIDE <==> !(r.Left <= x <= r.Right && r.Bottom <= y <= r.Top))
  {
    if IsEmpty(r) then OUTSIDE
    else
      ClassifyPointGeometry(r, x, y);
      ClassifyPoint(r, x, y)
  }

  /** `IsInside(point)` forwards the point's coordinates. */
  function IsInsideVector(r: RectT, p: Vector2Real): IntersectionResult
  {
    IsInsidePoint(r, p.X, p.Y)
  }

  /** Every corner of a non-empty oriented rectangle, and so of every
      rectangle `Make` builds, is on its edge. */
  lemma CornersOnTheEdge(left: real, top: real, right: real, bottom: real)
    requires left != right && top != bottom
    ensures var r := Make(left, top, right, bottom);
      && IsInsideVector(r, GetLT(r)) == ON_THE_EDGE
      && IsInsideVector(r, GetRT(r)) == ON_THE_EDGE
      && IsInsideVector(r, GetLB(r)) == ON_THE_EDGE
      && IsInsideVector(r, GetRB(r)) == ON_THE_EDGE
  {
    var r := Make(left, top, right, bottom);
    CornerClassification(r, GetLT(r));
    CornerClassification(r, GetRT(r));
    CornerClassification(r, GetLB(r));
    CornerClassification(r, GetRB(r));
  }

  /** `IsInside(other)`: `OUTSIDE` when either rectangle is empty, otherwise
      the cascade over the other rectangle's corners. */
  function IsInsideRect(r: RectT, other: RectT): (c: IntersectionResult)
    ensures IsEmpty(r) || IsEmpty(other) ==> c == OUTSIDE
    ensures IsOriented(r) && IsOriented(other) && !IsEmpty(other) ==>
      (c == FULLY_INSIDE <==> r.Left < other.Left && other.Right < r.Right && r.Bottom < other.Bottom && other.Top < r.Top)
  {
    if IsEmpty(r) || IsEmpty(other) then OUTSIDE
    else
      ClassifyRectFullyInside(r, other);
      CombineCorners(IsInsideVector(r, GetLT(other)), IsInsideVector(r, GetLB(other)),
                     IsInsideVector(r, GetRT(other)), IsInsideVector(r, GetRB(other)))
  }

  /** A non-empty rectangle tested against itself is `ON_THE_EDGE` when it
      is oriented along some axis, as every rectangle `Make` builds is. */
  lemma InsideItself(r: RectT)
    requires !IsEmpty(r)
    ensures IsInsideRect(r, r) == if r.Left <= r.Right || r.Bottom <= r.Top then ON_THE_EDGE else OUTSIDE
  {
    ClassifySelf(r);
  }

  /** `IsEqual` compares all four fields; `==` forwards to it and `!=`
      negates it. */
  function IsEqual(a: RectT, b: RectT): (eq: bool)
    ensures eq <==> a == b
  {
    a.Left == b.Left && a.Top == b.Top && a.Right == b.Right && a.Bottom == b.Bottom
  }

  function NotEqual(a: RectT, b: RectT): (ne: bool)
    ensures ne <==> a != b
  {
    !IsEqual(a, b)
  }

  /** `ToString`: `[Left, Top](Right, Bottom)`, each scalar printed by the
      scalar formatter `format`. */
  function ToString(r: RectT, format: real -> string): string
  {
    Bracketed(format(r.Left), format(r.Top), format(r.Right), format(r.Bottom))
  }

  /** The parse steps after the groups are found: exactly two pieces per
      group, then Left, Top, Right and Bottom parsed in that order, each
      written straight into the field (no `Set`), stopping at the first
      failure with the fields parsed so far already written. */
  function Assign(r: RectT, lt: seq<string>, rb: seq<string>, parse: string -> Option<real>): (p: Parsed)
    ensures |lt| != 2 || |rb| != 2 ==> p == Parsed(false, r)
    ensures p.ok <==> (|lt| == 2 && |rb| == 2
      && parse(lt[0]).Some? && parse(lt[1]).Some? && parse(rb[0]).Some? && parse(rb[1]).Some?)
    ensures p.ok ==> p.rect == RectT(parse(lt[0]).value, parse(lt[1]).value, parse(rb[0]).value, parse(rb[1]).value)
    ensures !p.ok ==> p.rect.Bottom == r.Bottom
  {
    if |lt| != 2 || |rb| != 2 || parse(lt[0]).None? then Parsed(false, r)
    else
      var withLeft := r.(Left := parse(lt[0]).value);
      if parse(lt[1]).None? then Parsed(false, withLeft)
      else
        var withTop := withLeft.(Top := parse(lt[1]).value);
        if parse(rb[0]).None? then Parsed(false, withTop)
        else
          var withRight := withTop.(Right := parse(rb[0]).value);
          if parse(rb[1]).None? then Parsed(false, withRight)
          else Parsed(true, withRight.(Bottom := parse(rb[1]).value))
  }

  /** `FromString` as the library writes it: each group is cut with the
      length `end - begin`, so the second piece of each group still ends with
      the group's closing delimiter when it reaches the scalar parser. */
  function FromStringAsWritten(r: RectT, s: string, parse: string -> Option<real>): (p: Parsed)
    ensures Missing(s) ==> p == Parsed(false, r)
    ensures Groups(s, true).Some? ==> var (lt, rb) := Groups(s, true).value;
      && (|lt| != 2 || |rb| != 2 ==> p == Parsed(false, r))
      && (p.ok <==> (|lt| == 2 && |rb| == 2
            && parse(lt[0]).Some? && parse(lt[1]).Some? && parse(rb[0]).Some? && parse(rb[1]).Some?))
      && (p.ok ==> p.rect == RectT(parse(lt[0]).value, parse(lt[1]).value, parse(rb[0]).value, parse(rb[1]).value))
  {
    GroupsMissing(s, true);
    match Groups(s, true)
    case None => Parsed(false, r)
    case Some((lt, rb)) => Assign(r, lt, rb, parse)
  }

  /** `FromString` with each group cut to its contents. */
  function FromString(r: RectT, s: string, parse: string -> Option<real>): (p: Parsed)
    ensures Missing(s) ==> p == Parsed(false, r)
    ensures Groups(s, false).Some? ==> var (lt, rb) := Groups(s, false).value;
      && (|lt| != 2 || |rb| != 2 ==> p == Parsed(false, r))
      && (p.ok <==> (|lt| == 2 && |rb| == 2
            && parse(lt[0]).Some? && parse(lt[1]).Some? && parse(rb[0]).Some? && parse(rb[1]).Some?))
      && (p.ok ==> p.rect == RectT(parse(lt[0]).value, parse(lt[1]).value, parse(rb[0]).value, parse(rb[1]).value))
  {
    GroupsMissing(s, false);
    match Groups(s, false)
    case None => Parsed(false, r)
    case Some((lt, rb)) => Assign(r, lt, rb, parse)
  }

  /** The scalar formatter and parser agree on one value: its text has no
      delimiter of the bracket form and parses back, after trimming, to
      the value. */
  predicate RoundTrips(format: real -> string, parse: string -> Option<real>, x: real)
  {
    Clean(format(x)) && parse(Trim(format(x))) == Some(x)
  }

  /** Reading back what `ToString` printed restores every field, oriented
      or not, whatever the rectangle held before. */
  lemma FromStringToString(r: RectT, before: RectT, format: real -> string, parse: string -> Option<real>)
    requires RoundTrips(format, parse, r.Left) && RoundTrips(format, parse, r.Top)
    requires RoundTrips(format, parse, r.Right) && RoundTrips(format, parse, r.Bottom)
    requires Fits(ToString(r, format))
    ensures FromString(before, ToString(r, format), parse) == Parsed(true, r)
  {
    GroupsOfBracketed(format(r.Left), format(r.Top), format(r.Right), format(r.Bottom));
  }

  /** As written, the parser hands the Top text with `]` attached to the
      scalar parser; a parser that refuses that trailing bracket makes
      `FromString` reject every text `ToString` prints. */
  lemma FromStringAsWrittenRejectsToString(r: RectT, before: RectT, format: real -> string, parse: string -> Option<real>)
    requires Clean(format(r.Left)) && Clean(format(r.Top)) && Clean(format(r.Right)) && Clean(format(r.Bottom))
    requires Fits(ToString(r, format))
    requires parse(Trim(format(r.Top) + "]")).None?
    ensures !FromStringAsWritten(before, ToString(r, format), parse).ok
  {
    GroupsOfBracketedAsWritten(format(r.Left), format(r.Top), format(r.Right), format(r.Bottom));
  }
}
