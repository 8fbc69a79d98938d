/** 2D points over exact reals (point.py).

    The source stores coordinates as floats and mutates them in place; here a
    point is an immutable value and every mutating operation (`set`,
    `translate`, `+=`, `-=`) returns the new point, so `p += q` is `Add(p, q)`
    stored back into `p`. A value has no identity: two names bound to one
    mutable point, which see each other's changes in the source, are not
    modelled.
 */
module Points {
  import opened Outcomes

  /** Default absolute tolerance of the approximate comparisons. */
  const Tolerance: real := 1.0e-15

  datatype Point = Point(x: real, y: real)

  const Origin: Point := Point(0.0, 0.0)

  function Abs(r: real): (a: real)
    ensures a >= 0.0
    ensures a == r || a == -r
  {
    if r < 0.0 then -r else r
  }

  /** The first argument of the Point constructor: left out, a number, or a
      point whose coordinates are copied. */
  datatype Arg = Absent | Num(v: real) | Copy(p: Point)

  /** Point(x, y). A copied point ignores `y`; a missing `y` is 0. */
  function Make(x: Arg, y: Option<real>): (p: Point)
    ensures x.Copy? ==> p == x.p
    ensures x.Absent? ==> p.x == 0.0
    ensures x.Num? ==> p.x == x.v
    ensures !x.Copy? ==> p.y == (if y.Some? then y.value else 0.0)
  {
    match x
    case Copy(q) => Point(q.x, q.y)
    case Num(v) => Point(v, if y.Some? then y.value else 0.0)
    case Absent => Point(0.0, if y.Some? then y.value else 0.0)
  }

  /** `set(x, y)`: the point with the new coordinates. */
  function Set(p: Point, x: real, y: real): (q: Point)
    ensures q.x == x && q.y == y
  {
    Point(x, y)
  }

  /** `==` is exact comparison of both coordinates. */
  function Eq(p: Point, q: Point): (b: bool)
    ensures b <==> p == q
  {
    p.x == q.x && p.y == q.y
  }

  /** `!=` is the negation of `==`. */
  function Ne(p: Point, q: Point): (b: bool)
    ensures b <==> p != q
  {
    !Eq(p, q)
  }

  /** `isNear(o, xt, yt)`: each coordinate differs by at most its tolerance;
      the y tolerance defaults to the x tolerance. */
  function IsNear(p: Point, o: Point, xt: real := Tolerance, yt: Option<real> := None): (b: bool)
    ensures var ytol := if yt.Some? then yt.value else xt;
            b <==> o.x - xt <= p.x <= o.x + xt && o.y - ytol <= p.y <= o.y + ytol
  {
    var ytol := if yt.Some? then yt.value else xt;
    Abs(p.x - o.x) <= xt && Abs(p.y - o.y) <= ytol
  }

  /** `isNearZero` is `isNear` against the origin. */
  function IsNearZero(p: Point, xt: real := Tolerance, yt: Option<real> := None): (b: bool)
    ensures var ytol := if yt.Some? then yt.value else xt;
            b <==> -xt <= p.x <= xt && -ytol <= p.y <= ytol
  {
    IsNear(p, Make(Absent, None), xt, yt)
  }

  /** The right operand of `+`, `-`, `+=` and `-=`: a point, or a number
      that is applied to both coordinates. */
  datatype Operand = P(q: Point) | Scalar(f: real)

  function AsVector(o: Operand): Point
  {
    match o
    case P(q) => q
    case Scalar(f) => Point(f, f)
  }

  /** `p + o` (and `p += o`). */
  function Add(p: Point, o: Operand): (r: Point)
    ensures r.x - p.x == AsVector(o).x && r.y - p.y == AsVector(o).y
  {
    var d := AsVector(o);
    Point(p.x + d.x, p.y + d.y)
  }

  /** `p - o` (and `p -= o`). */
  function Sub(p: Point, o: Operand): (r: Point)
    ensures p.x - r.x == AsVector(o).x && p.y - r.y == AsVector(o).y
  {
    var d := AsVector(o);
    Point(p.x - d.x, p.y - d.y)
  }

  /** The argument of `translate`: a point, or the two components. */
  datatype Shift = ByPoint(d: Point) | ByXY(dx: real, dy: real)

  function Translate(p: Point, s: Shift): (r: Point)
    ensures s.ByXY? ==> r == Add(p, P(Point(s.dx, s.dy)))
    ensures s.ByPoint? ==> r == Add(p, P(s.d))
  {
    match s
    case ByPoint(d) => Add(p, P(d))
    case ByXY(dx, dy) => Point(p.x + dx, p.y + dy)
  }

  // ---------------------------------------------------------------------------
  // Properties

  /** Point() is the origin, Point(x) puts y at 0, Point(p) is a copy of p. */
  lemma ConstructorDefaults(a: real, b: real, p: Point)
    ensures Make(Absent, None) == Origin
    ensures Make(Num(a), None) == Point(a, 0.0)
    ensures Make(Num(a), Some(b)) == Point(a, b)
    ensures Make(Copy(p), None) == p && Make(Copy(p), Some(b)) == p
  {
  }

  /** With zero tolerances `isNear` is exact equality; with non-negative
      tolerances equal points are near; nearness is symmetric. */
  lemma IsNearFacts(p: Point, o: Point, xt: real, yt: real)
    ensures IsNear(p, o, 0.0) <==> Eq(p, o)
    ensures xt >= 0.0 && yt >= 0.0 && Eq(p, o) ==> IsNear(p, o, xt, Some(yt))
    ensures IsNear(p, o, xt, Some(yt)) <==> IsNear(o, p, xt, Some(yt))
    ensures IsNear(p, o, xt) <==> IsNear(p, o, xt, Some(xt))
  {
  }

  /** `isNearZero` bounds the absolute value of each coordinate. */
  lemma IsNearZeroBounds(p: Point, xt: real, yt: real)
    ensures IsNearZero(p, xt, Some(yt)) <==> Abs(p.x) <= xt && Abs(p.y) <= yt
  {
  }

  /** The tolerance cases exercised by the source's tests. */
  lemma NearExamples()
    ensures IsNear(Point(1.0, 2.0), Point(1.0 + 1.0e-16, 2.0))
    ensures IsNear(Point(1.0, 2.0), Point(1.0 + 1.0e-16, 2.0 + 1.0e-16))
    ensures !IsNear(Point(1.0, 2.0), Point(1.0 + 1.0e-14, 2.0))
    ensures !IsNear(Point(1.0, 2.0), Point(1.0, 2.0 + 1.0e-14))
    ensures IsNearZero(Point(1.0e-16, 1.0e-16))
    ensures !IsNearZero(Point(0.0, 1.0e-14))
  {
  }

  /** Subtraction undoes addition of the same operand and vice versa. */
  lemma AddSubInverse(p: Point, o: Operand)
    ensures Sub(Add(p, o), o) == p
    ensures Add(Sub(p, o), o) == p
  {
  }

  /** Adding a number is adding the point with that number in both places;
      point addition commutes. */
  lemma AddScalarIsAddPoint(p: Point, q: Point, f: real)
    ensures Add(p, Scalar(f)) == Add(p, P(Point(f, f)))
    ensures Sub(p, Scalar(f)) == Sub(p, P(Point(f, f)))
    ensures Add(p, P(q)) == Add(q, P(p))
  {
  }
}
