/**
  Geometry primitives of the simulator: points in millimetres in the
  arena-centred frame, polar vectors with angles in degrees (0 along +x,
  counter-clockwise positive), heading-aware rectangles and the static
  obstacles built on them.
 */
module Geometry {
  import opened Numerics

  datatype Point = Point(x: real, y: real) {

    function Plus(other: Point): Point {
      Point(x + other.x, y + other.y)
    }

    /** Subtraction undoes addition. */
    function Minus(other: Point): (r: Point)
      ensures r.Plus(other) == this
    {
      Point(x - other.x, y - other.y)
    }

    function Negated(): Point {
      Point(-x, -y)
    }

    /** Euclidean distance, through the library's square root. */
    function DistanceTo(t: Trig, other: Point): real {
      t.sqrt(Square(other.x - x) + Square(other.y - y))
    }
  }

  /** Distance is the same measured from either end. */
  lemma DistanceSymmetric(t: Trig, p: Point, q: Point)
    ensures p.DistanceTo(t, q) == q.DistanceTo(t, p)
  {
    assert Square(q.x - p.x) == Square(p.x - q.x);
    assert Square(q.y - p.y) == Square(p.y - q.y);
  }

  /** r * v, as a named function so that equal factors give equal products
      without arithmetic reasoning. */
  function Scale(r: real, v: real): real {
    r * v
  }

  datatype Vector = Vector(r: real, theta: real) {

    /** The Cartesian offset of the vector, each coordinate rounded to a
        whole millimetre as the simulator does. */
    function ToPoint(t: Trig): Point {
      Point(Round(Scale(r, t.cos(theta))) as real, Round(Scale(r, t.sin(theta))) as real)
    }
  }

  /** The rounded offset is whole millimetres, each coordinate within half a
      millimetre of the exact polar-to-Cartesian value. */
  lemma ToPointNear(t: Trig, v: Vector)
    ensures IsIntegral(v.ToPoint(t).x) && IsIntegral(v.ToPoint(t).y)
    ensures Abs(v.ToPoint(t).x - v.r * t.cos(v.theta)) <= 0.5
    ensures Abs(v.ToPoint(t).y - v.r * t.sin(v.theta)) <= 0.5
  {
    RoundNearest(Scale(v.r, t.cos(v.theta)));
    RoundNearest(Scale(v.r, t.sin(v.theta)));
  }

  /** The vector from p1 to p2: its length and its direction in degrees. */
  function FromPoints(t: Trig, p1: Point, p2: Point): Vector {
    var dx := p2.x - p1.x;
    var dy := p2.y - p1.y;
    Vector(t.sqrt(Square(dx) + Square(dy)), t.atan2(dy, dx))
  }

  /** The law of numpy's arctan2 in degrees together with the square root:
      an offset's length and direction give the offset back exactly. */
  ghost predicate AtanLaw(t: Trig) {
    forall dy, dx {:trigger t.atan2(dy, dx)} ::
      && Scale(t.sqrt(Square(dx) + Square(dy)), t.cos(t.atan2(dy, dx))) == dx
      && Scale(t.sqrt(Square(dx) + Square(dy)), t.sin(t.atan2(dy, dx))) == dy
  }

  /** The vector's length is the distance between its two points; it is never
      negative and vanishes exactly when the points coincide. */
  lemma FromPointsLength(t: Trig, p1: Point, p2: Point)
    requires SqrtLaw(t)
    ensures FromPoints(t, p1, p2).r == p1.DistanceTo(t, p2)
    ensures FromPoints(t, p1, p2).r >= 0.0
    ensures FromPoints(t, p1, p2).r == 0.0 <==> p1 == p2
  {
    var dx, dy := p2.x - p1.x, p2.y - p1.y;
    var v := Square(dx) + Square(dy);
    assert Square(dx) >= 0.0 && Square(dy) >= 0.0;
    assert t.sqrt(v) * t.sqrt(v) == v;
    SquareZero(t.sqrt(v));
    SquareZero(dx);
    SquareZero(dy);
    assert p1 == p2 <==> dx == 0.0 && dy == 0.0;
  }

  /** Only zero squares to zero. */
  lemma SquareZero(x: real)
    ensures Square(x) >= 0.0
    ensures Square(x) == 0.0 <==> x == 0.0
  {
    if x > 0.0 {
      calc { Square(x); == x * x; > { assert x * x > 0.0 * x; } 0.0; }
    } else if x < 0.0 {
      var y := -x;
      calc { Square(x); == y * y; > { assert y * y > 0.0 * y; } 0.0; }
    }
  }

  /** Building the vector from p1 to p2 and converting it back to a
      Cartesian offset recovers p2 - p1 exactly before rounding, and exactly
      after rounding when the offset is whole millimetres. */
  lemma FromPointsRoundTrip(t: Trig, p1: Point, p2: Point)
    requires AtanLaw(t)
    ensures var v := FromPoints(t, p1, p2);
      p1.Plus(Point(Scale(v.r, t.cos(v.theta)), Scale(v.r, t.sin(v.theta)))) == p2
    ensures IsIntegral(p2.x - p1.x) && IsIntegral(p2.y - p1.y) ==>
      FromPoints(t, p1, p2).ToPoint(t) == p2.Minus(p1)
  {
    var dx, dy := p2.x - p1.x, p2.y - p1.y;
    var v := FromPoints(t, p1, p2);
    assert Scale(v.r, t.cos(v.theta)) == dx && Scale(v.r, t.sin(v.theta)) == dy;
    RoundIntegral(dx.Floor);
    RoundIntegral(dy.Floor);
  }

  /** Directions with opposite cosine and sine give exactly opposite
      rounded offsets, since Python's rounding is symmetric about zero. */
  lemma ToPointOpposite(t: Trig, r: real, a: real, b: real)
    requires t.cos(b) == -t.cos(a) && t.sin(b) == -t.sin(a)
    ensures Vector(r, b).ToPoint(t) == Vector(r, a).ToPoint(t).Negated()
  {
    var c, s := t.cos(a), t.sin(a);
    assert Scale(r, -c) == -Scale(r, c) && Scale(r, -s) == -Scale(r, s);
    RoundNegates(Scale(r, c));
    RoundNegates(Scale(r, s));
  }

  /** Turning a vector half a turn negates its rounded offset exactly. */
  lemma ToPointHalfTurn(t: Trig, r: real, a: real)
    requires Lawful(t)
    ensures Vector(r, a + 180.0).ToPoint(t) == Vector(r, a).ToPoint(t).Negated()
  {
    HalfTurnNegates(t, a);
    ToPointOpposite(t, r, a, a + 180.0);
  }

  /** A full turn leaves the rounded offset unchanged. */
  lemma ToPointFullTurn(t: Trig, r: real, a: real)
    requires Lawful(t)
    ensures Vector(r, a + 360.0).ToPoint(t) == Vector(r, a).ToPoint(t)
  {
    FullTurn(t, a);
  }

  /** A rectangle (robot chassis, arena or obstacle footprint) with its
      centre, size in millimetres and heading in degrees. */
  datatype Box = Box(center: Point, width: real, height: real, heading: real)

  /** The four corners under the fixed naming of simulator.py. */
  datatype Corners = Corners(frontRight: Point, frontLeft: Point, backLeft: Point, backRight: Point)

  /** The corners in the order simulator.py visits them. */
  function CornerList(c: Corners): seq<Point> {
    [c.frontRight, c.frontLeft, c.backLeft, c.backRight]
  }

  function Square(v: real): real {
    v * v
  }

  function HalfDiagonal(t: Trig, b: Box): real {
    t.sqrt(Square(b.width) + Square(b.height)) / 2.0
  }

  /** The angle of the diagonal above the box's own x axis, in degrees. */
  function BaseAngle(t: Trig, b: Box): real {
    t.atan2(b.height, b.width)
  }

  /** p lies a whole number of millimetres from c along each axis. */
  predicate WholeOffset(p: Point, c: Point) {
    IsIntegral(p.x - c.x) && IsIntegral(p.y - c.y)
  }

  /** The point half a diagonal from the centre in direction `angle`. */
  function CornerAt(t: Trig, center: Point, halfDiagonal: real, angle: real): Point {
    center.Plus(Vector(halfDiagonal, angle).ToPoint(t))
  }

  /** The corners of a box: front-right at heading - base (written heading +
      360 - base), front-left at heading + base, back-left at heading + 180 -
      base, back-right at heading + 180 + base. */
  function BoxCorners(t: Trig, b: Box): Corners {
    CornersAround(t, b.center, HalfDiagonal(t, b), b.heading, BaseAngle(t, b))
  }

  /** The four corners half a diagonal `d` from `center`, for a box turned to
      `heading` whose diagonal makes angle `base` with its own x axis. */
  function CornersAround(t: Trig, center: Point, d: real, heading: real, base: real): Corners {
    Corners(
      CornerAt(t, center, d, heading + 360.0 - base),
      CornerAt(t, center, d, heading + base),
      CornerAt(t, center, d, heading + 180.0 - base),
      CornerAt(t, center, d, heading + 180.0 + base))
  }

  lemma CornerAtWhole(t: Trig, center: Point, d: real, angle: real)
    ensures WholeOffset(CornerAt(t, center, d, angle), center)
  {
    var offset := Vector(d, angle).ToPoint(t);
    ToPointNear(t, Vector(d, angle));
    assert center.Plus(offset).Minus(center) == offset;
  }

  /** Every corner sits a whole number of millimetres from the centre along
      each axis, because the offsets are rounded. */
  lemma BoxCornersWhole(t: Trig, b: Box)
    ensures var c := BoxCorners(t, b);
      && WholeOffset(c.frontRight, b.center) && WholeOffset(c.frontLeft, b.center)
      && WholeOffset(c.backLeft, b.center) && WholeOffset(c.backRight, b.center)
  {
    var base := BaseAngle(t, b);
    var d := HalfDiagonal(t, b);
    CornerAtWhole(t, b.center, d, b.heading + 360.0 - base);
    CornerAtWhole(t, b.center, d, b.heading + base);
    CornerAtWhole(t, b.center, d, b.heading + 180.0 - base);
    CornerAtWhole(t, b.center, d, b.heading + 180.0 + base);
  }

  /** The two front corners, front-right first. */
  function FrontEdge(t: Trig, b: Box): (e: (Point, Point))
    ensures e.0 == BoxCorners(t, b).frontRight && e.1 == BoxCorners(t, b).frontLeft
  {
    var c := BoxCorners(t, b);
    (c.frontRight, c.frontLeft)
  }

  /** Opposite corners are point-symmetric about the centre: front-right
      faces back-left and front-left faces back-right. */
  lemma {:induction false} CornersPointSymmetric(t: Trig, b: Box)
    requires Lawful(t)
    ensures BoxCorners(t, b).frontRight.Minus(b.center) == BoxCorners(t, b).backLeft.Minus(b.center).Negated()
    ensures BoxCorners(t, b).frontLeft.Minus(b.center) == BoxCorners(t, b).backRight.Minus(b.center).Negated()
  {
    var base := BaseAngle(t, b);
    var d := HalfDiagonal(t, b);
    ToPointHalfTurn(t, d, b.heading + 180.0 - base);
    assert b.heading + 180.0 - base + 180.0 == b.heading + 360.0 - base;
    ToPointHalfTurn(t, d, b.heading + base);
    assert b.heading + base + 180.0 == b.heading + 180.0 + base;
  }

  /** A full turn of the direction leaves a corner where it was. */
  lemma CornerAtFullTurn(t: Trig, center: Point, d: real, angle: real, turned: real)
    requires Lawful(t)
    requires turned == angle + 360.0
    ensures CornerAt(t, center, d, turned) == CornerAt(t, center, d, angle)
  {
    ToPointFullTurn(t, d, angle);
  }

  /** Turning a box by a full turn gives the same corners. */
  lemma CornersFullTurn(t: Trig, b: Box)
    requires Lawful(t)
    ensures BoxCorners(t, b.(heading := b.heading + 360.0)) == BoxCorners(t, b)
  {
    var b' := b.(heading := b.heading + 360.0);
    assert BaseAngle(t, b') == BaseAngle(t, b) && HalfDiagonal(t, b') == HalfDiagonal(t, b);
    CornersAroundFullTurn(t, b.center, HalfDiagonal(t, b), b.heading, BaseAngle(t, b));
  }

  lemma CornersAroundFullTurn(t: Trig, center: Point, d: real, heading: real, base: real)
    requires Lawful(t)
    ensures CornersAround(t, center, d, heading + 360.0, base) == CornersAround(t, center, d, heading, base)
  {
    CornerAtFullTurn(t, center, d, heading + 360.0 - base, heading + 360.0 + 360.0 - base);
    CornerAtFullTurn(t, center, d, heading + base, heading + 360.0 + base);
    CornerAtFullTurn(t, center, d, heading + 180.0 - base, heading + 360.0 + 180.0 - base);
    CornerAtFullTurn(t, center, d, heading + 180.0 + base, heading + 360.0 + 180.0 + base);
  }

  /** A static rectangular obstacle. The source keeps the centre, size and
      heading both in the box and in its own fields; here they are read from
      the box. */
  datatype Obstacle = Obstacle(box: Box) {

    function Corners(t: Trig): Corners {
      BoxCorners(t, box)
    }

    /** Strictly inside the axis-aligned rectangle of the obstacle's size
        around its centre; the heading is ignored. */
    predicate ContainsPoint(p: Point)
      ensures ContainsPoint(p) <==>
        && box.center.x - box.width / 2.0 < p.x < box.center.x + box.width / 2.0
        && box.center.y - box.height / 2.0 < p.y < box.center.y + box.height / 2.0
    {
      var halfWidth := box.width / 2.0;
      var halfHeight := box.height / 2.0;
      Abs(p.x - box.center.x) < halfWidth && Abs(p.y - box.center.y) < halfHeight
    }
  }

  /** Containment does not depend on the obstacle's heading. */
  lemma ContainsPointIgnoresHeading(o: Obstacle, heading: real, p: Point)
    ensures Obstacle(o.box.(heading := heading)).ContainsPoint(p) == o.ContainsPoint(p)
  {
  }

  /** An obstacle contains its own centre exactly when it has positive size. */
  lemma ContainsCenter(o: Obstacle)
    ensures o.ContainsPoint(o.box.center) <==> o.box.width > 0.0 && o.box.height > 0.0
  {
  }
}
