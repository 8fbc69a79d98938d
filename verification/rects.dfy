/** Axis-aligned rectangles given by two unsorted corners (rect.py).

    `p0` and `p1` are kept exactly as given: p0 need not be the bottom-left
    corner, so spans may be negative and sizes are their absolute values.

    `Translate`, `Unite` and `Contains` are used by the document tree but
    their bodies are not part of this model's source; they are defined here
    in the simplest way consistent with their use: a translation moves both
    corners, and the union of two rectangles is the smallest normalised
    rectangle (p0 the minimum corner, p1 the maximum) covering both.
 */
module Rects {
  import opened Outcomes
  import opened Points

  datatype Rect = Rect(p0: Point, p1: Point)

  /** An argument of the Rect constructor. */
  datatype Arg = Number(v: real) | Pt(p: Point) | Box(r: Rect)

  /** One corner built the way `Point(a, b)` treats the two arguments: a
      point is copied (b ignored), numbers become the coordinates, anything
      else fails the float() conversion. */
  function Corner(a: Arg, b: Arg): (r: Result<Point>)
    ensures a.Pt? ==> r == Ok(a.p)
    ensures a.Number? && b.Number? ==> r == Ok(Point(a.v, b.v))
    ensures r.Err? <==> a.Box? || (a.Number? && !b.Number?)
  {
    match a
    case Pt(q) => Ok(Make(Copy(q), None))
    case Number(v) => if b.Number? then Ok(Point(v, b.v)) else Err(NotANumber)
    case Box(_) => Err(NotANumber)
  }

  /** Rect(), Rect(x0, y0, x1, y1), Rect(P, Q) and Rect(r). */
  function MakeRect(args: seq<Arg>): (r: Result<Rect>)
    ensures |args| == 0 ==> r == Ok(Rect(Origin, Origin))
    ensures |args| == 4 && args[0].Number? && args[1].Number? && args[2].Number? && args[3].Number? ==>
              r == Ok(Rect(Point(args[0].v, args[1].v), Point(args[2].v, args[3].v)))
    ensures |args| == 4 ==> (r.Err? <==> Corner(args[0], args[1]).Err? || Corner(args[2], args[3]).Err?)
    ensures |args| == 4 && r.Ok? ==>
              r.value == Rect(Corner(args[0], args[1]).value, Corner(args[2], args[3]).value)
    ensures |args| == 2 ==> (r.Ok? <==> args[0].Pt? && args[1].Pt?)
    ensures |args| == 2 && r.Ok? ==> r.value == Rect(args[0].p, args[1].p)
    ensures |args| == 1 ==> (r.Ok? <==> args[0].Box?)
    ensures |args| == 1 && r.Ok? ==> r.value == args[0].r
    ensures (|args| == 1 || |args| == 2) && r.Err? ==> r.error == WrongArgumentType
    ensures |args| == 3 || |args| > 4 ==> r == Err(WrongArgumentCount)
  {
    if |args| == 0 then
      Ok(Rect(Make(Absent, None), Make(Absent, None)))
    else if |args| == 4 then
      match Corner(args[0], args[1])
      case Err(e) => Err(e)
      case Ok(c0) =>
        match Corner(args[2], args[3])
        case Err(e) => Err(e)
        case Ok(c1) => Ok(Rect(c0, c1))
    else if |args| == 3 || |args| > 4 then
      Err(WrongArgumentCount)
    else if |args| == 1 then
      if args[0].Box? then Ok(Rect(args[0].r.p0, args[0].r.p1)) else Err(WrongArgumentType)
    else if args[0].Pt? && args[1].Pt? then
      Ok(Rect(Make(Copy(args[0].p), None), Make(Copy(args[1].p), None)))
    else
      Err(WrongArgumentType)
  }

  /** `xSpan()`: how far p1 lies to the right of p0 (negative when left). */
  function XSpan(r: Rect): (s: real)
    ensures r.p0.x + s == r.p1.x
  {
    r.p1.x - r.p0.x
  }

  /** `ySpan()`: how far p1 lies above p0 (negative when below). */
  function YSpan(r: Rect): (s: real)
    ensures r.p0.y + s == r.p1.y
  {
    r.p1.y - r.p0.y
  }

  function Min(a: real, b: real): (m: real)
    ensures m <= a && m <= b && (m == a || m == b)
  {
    if a <= b then a else b
  }

  function Max(a: real, b: real): (m: real)
    ensures m >= a && m >= b && (m == a || m == b)
  {
    if a >= b then a else b
  }

  /** Size in x: the absolute value of the x span. */
  function Width(r: Rect): (w: real)
    ensures w >= 0.0
    ensures w == XSpan(r) || w == -XSpan(r)
  {
    Abs(XSpan(r))
  }

  /** Size in y: the absolute value of the y span. */
  function Height(r: Rect): (h: real)
    ensures h >= 0.0
    ensures h == YSpan(r) || h == -YSpan(r)
  {
    Abs(YSpan(r))
  }

  /** Zero area, up to the point tolerance. */
  function IsEmpty(r: Rect): (b: bool)
    ensures b <==> Max(r.p0.x, r.p1.x) - Min(r.p0.x, r.p1.x) <= Tolerance ||
                   Max(r.p0.y, r.p1.y) - Min(r.p0.y, r.p1.y) <= Tolerance
  {
    Width(r) <= Tolerance || Height(r) <= Tolerance
  }

  /** The midpoint of the two corners. */
  function Center(r: Rect): (c: Point)
    ensures Sub(c, P(r.p0)) == Sub(r.p1, P(c))
  {
    Point((r.p0.x + r.p1.x) / 2.0, (r.p0.y + r.p1.y) / 2.0)
  }

  /** Translate so that the centre lands on `c`. */
  function MoveCenter(r: Rect, c: Point): (m: Rect)
    ensures Center(m) == c
    ensures XSpan(m) == XSpan(r) && YSpan(m) == YSpan(r)
  {
    var dp := Sub(c, P(Center(r)));
    Rect(Add(r.p0, P(dp)), Add(r.p1, P(dp)))
  }

  /** Move both corners by `d`. */
  function Translate(r: Rect, d: Point): (m: Rect)
    ensures m.p0 == Add(r.p0, P(d))
    ensures XSpan(m) == XSpan(r) && YSpan(m) == YSpan(r)
  {
    Rect(Add(r.p0, P(d)), Add(r.p1, P(d)))
  }

  /** Same rectangle, with p0 the minimum and p1 the maximum corner. */
  predicate Normalised(r: Rect)
  {
    r.p0.x <= r.p1.x && r.p0.y <= r.p1.y
  }

  predicate Contains(r: Rect, p: Point)
  {
    Min(r.p0.x, r.p1.x) <= p.x <= Max(r.p0.x, r.p1.x) &&
    Min(r.p0.y, r.p1.y) <= p.y <= Max(r.p0.y, r.p1.y)
  }

  predicate ContainsRect(outer: Rect, inner: Rect)
  {
    Contains(outer, inner.p0) && Contains(outer, inner.p1)
  }

  /** The smallest normalised rectangle covering both `a` and `b`. */
  function Unite(a: Rect, b: Rect): (u: Rect)
    ensures Normalised(u)
    ensures ContainsRect(u, a) && ContainsRect(u, b)
    ensures forall q: Rect {:trigger ContainsRect(q, u)} ::
              ContainsRect(q, a) && ContainsRect(q, b) ==> ContainsRect(q, u)
  {
    Rect(Point(Min(Min(a.p0.x, a.p1.x), Min(b.p0.x, b.p1.x)),
               Min(Min(a.p0.y, a.p1.y), Min(b.p0.y, b.p1.y))),
         Point(Max(Max(a.p0.x, a.p1.x), Max(b.p0.x, b.p1.x)),
               Max(Max(a.p0.y, a.p1.y), Max(b.p0.y, b.p1.y))))
  }

  // ---------------------------------------------------------------------------
  // Properties

  /** The construction errors the source's tests expect. */
  lemma ConstructionErrors()
    ensures MakeRect([Number(1.0)]) == Err(WrongArgumentType)
    ensures MakeRect([Number(1.0), Number(2.0)]) == Err(WrongArgumentType)
    ensures MakeRect([Number(1.0), Number(2.0), Number(3.0)]) == Err(WrongArgumentCount)
    ensures MakeRect([Pt(Point(3.0, 4.0)), Pt(Point(1.0, 2.0))])
            == Ok(Rect(Point(3.0, 4.0), Point(1.0, 2.0)))
  {
  }

  /** The three ways of giving the same rectangle agree, for every rectangle:
      as a rectangle, as its two corners, and as four coordinates. */
  lemma ConstructionFormsAgree(r: Rect)
    ensures MakeRect([Box(r)]) == Ok(r)
    ensures MakeRect([Pt(r.p0), Pt(r.p1)]) == Ok(r)
    ensures MakeRect([Number(r.p0.x), Number(r.p0.y), Number(r.p1.x), Number(r.p1.y)]) == Ok(r)
  {
  }

  /** Emptiness depends only on the size, not on where the rectangle is. */
  lemma EmptinessIgnoresPosition(r: Rect, c: Point, d: Point)
    ensures IsEmpty(MoveCenter(r, c)) <==> IsEmpty(r)
    ensures IsEmpty(Translate(r, d)) <==> IsEmpty(r)
  {
  }

  /** Width is the distance between the left-most and right-most border,
      height likewise in y. */
  lemma SizeIsExtent(r: Rect)
    ensures Width(r) == Max(r.p0.x, r.p1.x) - Min(r.p0.x, r.p1.x)
    ensures Height(r) == Max(r.p0.y, r.p1.y) - Min(r.p0.y, r.p1.y)
  {
  }

  /** Spans keep their sign; sizes do not (rect_test.py's span case). */
  lemma SpanExample()
    ensures var r := Rect(Point(1.0, 2.0), Point(5.0, 1.0));
            XSpan(r) == 4.0 && YSpan(r) == -1.0 && Width(r) == 4.0 && Height(r) == 1.0
  {
  }

  /** The emptiness cases the source's tests exercise. */
  lemma EmptyExamples()
    ensures IsEmpty(Rect(Point(1.0, 2.0), Point(1.0, 2.0)))
    ensures IsEmpty(Rect(Point(1.0, 2.0 + 1.0e-14), Point(1.0, 2.0)))
    ensures IsEmpty(Rect(Point(1.0 + 1.0e-14, 2.0), Point(1.0, 2.0)))
    ensures !IsEmpty(Rect(Point(1.0 + 1.0e-14, 2.0 + 1.0e-14), Point(1.0, 2.0)))
  {
  }

  /** Moving the centre to where it already is changes nothing; moving it
      twice is the same as moving it once to the last target. */
  lemma MoveCenterFacts(r: Rect, c: Point, d: Point)
    ensures MoveCenter(r, Center(r)) == r
    ensures MoveCenter(MoveCenter(r, c), d) == MoveCenter(r, d)
  {
  }

  /** Normalising commutes with translation; so does union. */
  lemma UniteTranslate(a: Rect, b: Rect, d: Point)
    ensures Unite(Translate(a, d), Translate(b, d)) == Translate(Unite(a, b), d)
  {
  }

  /** Containment is transitive. */
  lemma ContainsRectTransitive(a: Rect, b: Rect, c: Rect)
    requires ContainsRect(a, b) && ContainsRect(b, c)
    ensures ContainsRect(a, c)
  {
  }

  /** Uniting a normalised rectangle with itself gives it back. */
  lemma UniteNormalisedSelf(a: Rect)
    requires Normalised(a)
    ensures Unite(a, a) == a
  {
  }
}
