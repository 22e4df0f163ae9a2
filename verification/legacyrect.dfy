/** The older `RectT` (`Public/Math/Rect.h`): built from an origin and a
    size, with `SetSize`/`SetOrigin`, `area == 0` as its emptiness test and
    the text form `[Left, Top](width, height)`. It declares the same type
    under the same include guard as the current version, so the two are
    alternatives; here each is its own module over the shared `RectT`. */
module LegacyRect {
  import opened Scalar
  import opened Vector2
  import opened RectBase
  import opened RectText
  import Rect

  /** The (left, top, width, height) constructor and `Set`: the origin is
      the top-left corner, Right lies `width` to its right and Bottom
      `height` below it. Nothing is reordered, so a negative size gives a
      reversed rectangle. */
  function FromOriginSize(left: real, top: real, width: real, height: real): (r: RectT)
    ensures r.Left == left && r.Top == top
    ensures r.Right - r.Left == width && r.Top - r.Bottom == height
    ensures GetWidth(r) == Abs(width) && GetHeight(r) == Abs(height)
  {
    RectT(left, top, left + width, top - height)
  }

  /** The (origin, size) constructor and `Set` forward the vectors' parts. */
  function FromVectors(origin: Vector2Real, size: Vector2Real): RectT
  {
    FromOriginSize(origin.X, origin.Y, size.X, size.Y)
  }

  function GetOrigin(r: RectT): Vector2Real
  {
    Vector2Real(r.Left, r.Top)
  }

  /** `SetSize(width, height)`: the signs of the arguments are dropped and
      the rectangle is rebuilt to the right of and below its unchanged
      origin, so it always ends up oriented. */
  function SetSize(r: RectT, width: real, height: real): (s: RectT)
    ensures s.Left == r.Left && s.Top == r.Top
    ensures IsOriented(s)
    ensures GetWidth(s) == Abs(width) && GetHeight(s) == Abs(height)
  {
    RectT(r.Left, r.Top, r.Left + Abs(width), r.Top - Abs(height))
  }

  /** `SetOrigin(left, top, keepSize)`: without `keepSize` only the origin
      moves and the far edges stay where they were; with it the rectangle is
      moved, keeping its width and height but ending up oriented. */
  function SetOrigin(r: RectT, left: real, top: real, keepSize: bool): (s: RectT)
    ensures s.Left == left && s.Top == top
    ensures !keepSize ==> s.Right == r.Right && s.Bottom == r.Bottom
    ensures keepSize ==> IsOriented(s) && GetWidth(s) == GetWidth(r) && GetHeight(s) == GetHeight(r)
  {
    if !keepSize then r.(Left := left, Top := top)
    else SetSize(r.(Left := left, Top := top), GetWidth(r), GetHeight(r))
  }

  /** Moving an oriented rectangle with `keepSize` is a translation: both far
      edges move by the same offset as the origin. */
  lemma SetOriginKeepSizeTranslates(r: RectT, left: real, top: real)
    requires IsOriented(r)
    ensures var s := SetOrigin(r, left, top, true);
      s.Right - r.Right == left - r.Left && s.Bottom - r.Bottom == top - r.Top
  {
  }

  /** `IsEmpty`: the area is exactly zero. Since the area is never negative
      this agrees with the newer `area <= 0` test. */
  predicate IsEmpty(r: RectT)
  {
    GetArea(r) == 0.0
  }

  lemma IsEmptyAgrees(r: RectT)
    ensures IsEmpty(r) <==> Rect.IsEmpty(r)
    ensures IsEmpty(r) <==> r.Left == r.Right || r.Top == r.Bottom
  {
  }

  /** `IsInside(x, y)`: the same cascade as the current version behind this
      version's emptiness test. */
  function IsInsidePoint(r: RectT, x: real, y: real): (c: IntersectionResult)
    ensures c == Rect.IsInsidePoint(r, x, y)
  {
    if IsEmpty(r) then OUTSIDE else ClassifyPoint(r, x, y)
  }

  /** `IsInside(other)`: the same corner cascade as the current version. */
  function IsInsideRect(r: RectT, other: RectT): (c: IntersectionResult)
    ensures c == Rect.IsInsideRect(r, other)
  {
    if IsEmpty(r) || IsEmpty(other) then OUTSIDE
    else CombineCorners(IsInsidePoint(r, other.Left, other.Top), IsInsidePoint(r, other.Left, other.Bottom),
                        IsInsidePoint(r, other.Right, other.Top), IsInsidePoint(r, other.Right, other.Bottom))
  }

  /** `IsEqual` as the library writes it: Left, Top, Right and Top again, so
      Bottom is never compared. */
  function IsEqualAsWritten(a: RectT, b: RectT): (eq: bool)
    ensures eq <==> a.(Bottom := 0.0) == b.(Bottom := 0.0)
  {
    a.Left == b.Left && a.Top == b.Top && a.Right == b.Right && a.Top == b.Top
  }

  /** Two rectangles that differ only in Bottom compare equal as written. */
  lemma IsEqualAsWrittenIgnoresBottom()
    ensures var a, b := RectT(0.0, 1.0, 1.0, 0.0), RectT(0.0, 1.0, 1.0, -5.0);
      IsEqualAsWritten(a, b) && a != b
  {
  }

  /** `IsEqual` comparing all four fields, as the newer version does. */
  function IsEqual(a: RectT, b: RectT): (eq: bool)
    ensures eq <==> a == b
  {
    a.Left == b.Left && a.Top == b.Top && a.Right == b.Right && a.Bottom == b.Bottom
  }

  /** `ToString`: `[Left, Top](width, height)`, the size printed as the
      non-negative width and height. */
  function ToString(r: RectT, format: real -> string): string
  {
    Bracketed(format(r.Left), format(r.Top), format(GetWidth(r)), format(GetHeight(r)))
  }

  /** How a `FromString` call ends: `false`, `true`, or falling off the end
      of the function without a `return`, which is undefined behaviour in
      C++ and leaves the caller's result unspecified. */
  datatype Status = Rejected | Accepted | NoReturn

  datatype LegacyParsed = LegacyParsed(status: Status, rect: RectT)

  /** The pieces the size steps accept: two per group, all four parsed, and
      neither size equal to the -1 the locals start at. */
  predicate SizedAccepts(lt: seq<string>, wh: seq<string>, parse: string -> Option<real>)
  {
    && |lt| == 2 && |wh| == 2
    && parse(lt[0]).Some? && parse(lt[1]).Some? && parse(wh[0]).Some? && parse(wh[1]).Some?
    && parse(wh[0]).value != -1.0 && parse(wh[1]).value != -1.0
  }

  /** The rectangle accepted pieces describe: the parsed origin, with the
      far edges placed by the sizes' absolute values. */
  function SizedRect(lt: seq<string>, wh: seq<string>, parse: string -> Option<real>): RectT
    requires SizedAccepts(lt, wh, parse)
  {
    var left, top := parse(lt[0]).value, parse(lt[1]).value;
    RectT(left, top, left + Abs(parse(wh[0]).value), top - Abs(parse(wh[1]).value))
  }

  /** The parse steps after the groups are found, shared by both versions
      below: two pieces per group; Left and Top parsed and written; width
      and height parsed into locals that start at -1, a parsed -1 being
      taken as a failed conversion; then `SetSize`. `None` is a rejection,
      `Some` the rectangle reached on the success path. */
  function AssignSized(r: RectT, lt: seq<string>, wh: seq<string>, parse: string -> Option<real>): (p: (bool, RectT))
    ensures |lt| != 2 || |wh| != 2 ==> p == (false, r)
    ensures p.0 <==> SizedAccepts(lt, wh, parse)
    ensures p.0 ==> p.1 == SizedRect(lt, wh, parse)
    ensures !p.0 ==> p.1.Right == r.Right && p.1.Bottom == r.Bottom
  {
    if |lt| != 2 || |wh| != 2 || parse(lt[0]).None? then (false, r)
    else
      var withLeft := r.(Left := parse(lt[0]).value);
      if parse(lt[1]).None? then (false, withLeft)
      else
        var withOrigin := withLeft.(Top := parse(lt[1]).value);
        if parse(wh[0]).None? || parse(wh[1]).None? then (false, withOrigin)
        else
          var width, height := parse(wh[0]).value, parse(wh[1]).value;
          if width == -1.0 || height == -1.0 then (false, withOrigin)
          else (true, SetSize(withOrigin, width, height))
  }

  /** `FromString` as the library writes it: the groups keep their closing
      delimiter, and the success path reaches the end of the function
      without returning a value. */
  function FromStringAsWritten(r: RectT, s: string, parse: string -> Option<real>): (p: LegacyParsed)
    ensures p.status != Accepted
    ensures Missing(s) ==> p == LegacyParsed(Rejected, r)
    ensures Groups(s, true).Some? ==> var (lt, wh) := Groups(s, true).value;
      && (|lt| != 2 || |wh| != 2 ==> p == LegacyParsed(Rejected, r))
      && (p.status == NoReturn <==> SizedAccepts(lt, wh, parse))
      && (p.status == NoReturn ==> p.rect == SizedRect(lt, wh, parse))
  {
    GroupsMissing(s, true);
    match Groups(s, true)
    case None => LegacyParsed(Rejected, r)
    case Some((lt, wh)) =>
      var (reached, rect) := AssignSized(r, lt, wh, parse);
      LegacyParsed(if reached then NoReturn else Rejected, rect)
  }

  /** `FromString` with each group cut to its contents and `true` returned
      after `SetSize`. */
  function FromString(r: RectT, s: string, parse: string -> Option<real>): (p: Parsed)
    ensures Missing(s) ==> p == Parsed(false, r)
    ensures Groups(s, false).Some? ==> var (lt, wh) := Groups(s, false).value;
      && (|lt| != 2 || |wh| != 2 ==> p == Parsed(false, r))
      && (p.ok <==> SizedAccepts(lt, wh, parse))
      && (p.ok ==> p.rect == SizedRect(lt, wh, parse))
    ensures p.ok ==> IsOriented(p.rect)
  {
    GroupsMissing(s, false);
    match Groups(s, false)
    case None => Parsed(false, r)
    case Some((lt, wh)) =>
      var (reached, rect) := AssignSized(r, lt, wh, parse);
      Parsed(reached, rect)
  }

  /** Reading back what `ToString` printed restores an oriented rectangle:
      the origin is parsed back and the printed size rebuilds the far edges. */
  lemma FromStringToString(r: RectT, before: RectT, format: real -> string, parse: string -> Option<real>)
    requires IsOriented(r)
    requires Rect.RoundTrips(format, parse, r.Left) && Rect.RoundTrips(format, parse, r.Top)
    requires Rect.RoundTrips(format, parse, GetWidth(r)) && Rect.RoundTrips(format, parse, GetHeight(r))
    requires Fits(ToString(r, format))
    ensures FromString(before, ToString(r, format), parse) == Parsed(true, r)
  {
    var a, b, c, d := format(r.Left), format(r.Top), format(GetWidth(r)), format(GetHeight(r));
    GroupsOfBracketed(a, b, c, d);
    assert Groups(ToString(r, format), false) == Some(([Trim(a), Trim(b)], [Trim(c), Trim(d)]));
    AssignSizedRestores(r, before, [Trim(a), Trim(b)], [Trim(c), Trim(d)], parse);
  }

  /** The size steps applied to the parsed origin and size of an oriented
      rectangle rebuild that rectangle. */
  lemma AssignSizedRestores(r: RectT, before: RectT, lt: seq<string>, wh: seq<string>, parse: string -> Option<real>)
    requires IsOriented(r) && |lt| == 2 && |wh| == 2
    requires parse(lt[0]) == Some(r.Left) && parse(lt[1]) == Some(r.Top)
    requires parse(wh[0]) == Some(GetWidth(r)) && parse(wh[1]) == Some(GetHeight(r))
    ensures AssignSized(before, lt, wh, parse) == (true, r)
  {
    assert GetWidth(r) == r.Right - r.Left && GetHeight(r) == r.Top - r.Bottom;
  }

  /** The same text read by the parser as written: even with a scalar
      parser lenient enough to accept the pieces with their closing
      delimiter attached, the call ends without a return value. */
  lemma FromStringAsWrittenNeverReturnsTrue(r: RectT, before: RectT, format: real -> string, parse: string -> Option<real>)
    requires IsOriented(r)
    requires Clean(format(r.Left)) && Clean(format(r.Top)) && Clean(format(GetWidth(r))) && Clean(format(GetHeight(r)))
    requires Fits(ToString(r, format))
    requires parse(Trim(format(r.Left))) == Some(r.Left) && parse(Trim(format(r.Top) + "]")) == Some(r.Top)
    requires parse(Trim(format(GetWidth(r)))) == Some(GetWidth(r))
    requires parse(Trim(format(GetHeight(r)) + ")")) == Some(GetHeight(r))
    ensures FromStringAsWritten(before, ToString(r, format), parse) == LegacyParsed(NoReturn, r)
  {
    var a, b, c, d := format(r.Left), format(r.Top), format(GetWidth(r)), format(GetHeight(r));
    GroupsOfBracketedAsWritten(a, b, c, d);
    assert Groups(ToString(r, format), true) == Some(([Trim(a), Trim(b + "]")], [Trim(c), Trim(d + ")")]));
    AssignSizedRestores(r, before, [Trim(a), Trim(b + "]")], [Trim(c), Trim(d + ")")], parse);
  }
}
