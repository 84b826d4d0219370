/**
  The two front sonars of the simulated robot: where they sit on the
  chassis, and the distance each reports, which is the distance along the
  robot's heading from the sonar to the arena wall it faces.
 */
module Sensing {
  import opened Numerics
  import opened Geometry
  import opened Kinematics

  /** Each sonar sits 30 mm in from its front corner, along the front edge. */
  const SonarInset: real := 30.0

  /** The four headings the distance rule answers without trigonometry. */
  predicate Cardinal(h: real) {
    h == 0.0 || h == 90.0 || h == 180.0 || h == 270.0
  }

  /** The point `d` millimetres from `p` in direction `h`. */
  function RayEnd(t: Trig, p: Point, h: real, d: real): Point {
    Point(p.x + Scale(d, t.cos(h)), p.y + Scale(d, t.sin(h)))
  }

  /** Inside the arena or on one of its walls. */
  predicate InArena(p: Point) {
    !OutOfBounds(Arena, p)
  }

  /** On one of the four walls of the arena. */
  predicate OnWall(p: Point) {
    p.x == Arena.minX || p.x == Arena.maxX || p.y == Arena.minY || p.y == Arena.maxY
  }

  /** Distance from `p` along heading `h` to the arena wall it faces, given
      the sine `s` and cosine `c` of `h`. The four cardinal headings read the
      distance to the facing wall directly; any other heading takes the
      nearer of the distances to the horizontal and to the vertical wall in
      that direction. */
  function WallDistance(p: Point, h: real, s: real, c: real): (r: real)
    requires !Cardinal(h) ==> s != 0.0 && c != 0.0
    ensures h == 0.0 ==> r == Arena.maxX - p.x
    ensures h == 90.0 ==> r == Arena.maxY - p.y
    ensures h == 180.0 ==> r == p.x - Arena.minX
    ensures h == 270.0 ==> r == p.y - Arena.minY
    ensures InArena(p) ==> r >= 0.0
  {
    var north := BoxHeight / 2.0 - p.y;
    var south := p.y + BoxHeight / 2.0;
    var west := p.x + BoxWidth / 2.0;
    var east := BoxWidth / 2.0 - p.x;
    if h == 0.0 then east
    else if h == 90.0 then north
    else if h == 180.0 then west
    else if h == 270.0 then south
    else
      var toHorizontal := AxisLimit(north, south, s);
      var toVertical := AxisLimit(east, west, c);
      MinReal(toHorizontal, toVertical)
  }

  /** Along one axis, the distance travelled until the coordinate, moving at
      rate u per millimetre, has used up the room `ahead` of it (u > 0) or
      `behind` it (u < 0). */
  function AxisLimit(ahead: real, behind: real, u: real): (d: real)
    requires u != 0.0
    ensures ahead >= 0.0 && behind >= 0.0 ==> d >= 0.0
  {
    if u > 0.0 then ahead / u else behind / -u
  }

  /** The sine and cosine facts the distance rule relies on. */
  lemma CardinalTrig(t: Trig, h: real)
    requires Lawful(t) && ZeroLaw(t) && 0.0 <= h < 360.0
    ensures !Cardinal(h) ==> t.sin(h) != 0.0 && t.cos(h) != 0.0
    ensures h == 0.0 ==> t.sin(h) == 0.0 && t.cos(h) == 1.0
    ensures h == 90.0 ==> t.sin(h) == 1.0 && t.cos(h) == 0.0
    ensures h == 180.0 ==> t.sin(h) == 0.0 && t.cos(h) == -1.0
    ensures h == 270.0 ==> t.sin(h) == -1.0 && t.cos(h) == 0.0
  {
    HalfTurnNegates(t, 0.0);
    HalfTurnNegates(t, 90.0);
  }

  /** Distance from `p` along heading `h` (degrees in [0, 360)) to the arena
      wall it faces. */
  function DistToBox(t: Trig, p: Point, h: real): (r: real)
    requires Lawful(t) && ZeroLaw(t) && 0.0 <= h < 360.0
    ensures InArena(p) ==> r >= 0.0
  {
    CardinalTrig(t, h);
    WallDistance(p, h, t.sin(h), t.cos(h))
  }

  /** Travelling no farther than the axis limit keeps the coordinate within
      [lo, hi], and travelling exactly that far lands on the wall ahead. */
  lemma AxisWithin(pos: real, lo: real, hi: real, u: real, d: real)
    requires lo <= pos <= hi && 0.0 <= d
    requires u != 0.0 ==> d <= AxisLimit(hi - pos, pos - lo, u)
    ensures lo <= pos + Scale(d, u) <= hi
    ensures u != 0.0 && d == AxisLimit(hi - pos, pos - lo, u) ==>
      pos + Scale(d, u) == if u > 0.0 then hi else lo
  {
    if u > 0.0 {
      WithinLimit(d, u, hi - pos, d * u);
    } else if u < 0.0 {
      WithinLimit(d, -u, pos - lo, d * -u);
      MulNeg(d, u, d * u, d * -u);
    }
  }

  /** 0 <= d <= a / u with u > 0 gives 0 <= d * u <= a, with equality at
      the limit. */
  lemma WithinLimit(d: real, u: real, a: real, du: real)
    requires u > 0.0 && 0.0 <= d <= a / u && du == d * u
    ensures 0.0 <= du <= a
    ensures d == a / u ==> du == a
  {
    var lim := a / u;
    assert lim * u == a;
    MulMonotone(d, lim, u);
    MulMonotone(0.0, d, u);
  }

  lemma MulNeg(d: real, u: real, du: real, dv: real)
    requires du == d * u && dv == d * -u
    ensures du == -dv
  {
  }

  /** The wall distance is within both axis limits and equal to one of them. */
  lemma WallDistanceIsNearestLimit(p: Point, h: real, s: real, c: real)
    requires !Cardinal(h) ==> s != 0.0 && c != 0.0
    requires h == 0.0 ==> s == 0.0 && c == 1.0
    requires h == 90.0 ==> s == 1.0 && c == 0.0
    requires h == 180.0 ==> s == 0.0 && c == -1.0
    requires h == 270.0 ==> s == -1.0 && c == 0.0
    ensures var r := WallDistance(p, h, s, c);
      var toHorizontal := if s != 0.0 then AxisLimit(Arena.maxY - p.y, p.y - Arena.minY, s) else 0.0;
      var toVertical := if c != 0.0 then AxisLimit(Arena.maxX - p.x, p.x - Arena.minX, c) else 0.0;
      && (s != 0.0 ==> r <= toHorizontal)
      && (c != 0.0 ==> r <= toVertical)
      && ((s != 0.0 && r == toHorizontal) || (c != 0.0 && r == toVertical))
  {
    assert Arena.maxY == BoxHeight / 2.0 && Arena.minY == -(BoxHeight / 2.0);
    assert Arena.maxX == BoxWidth / 2.0 && Arena.minX == -(BoxWidth / 2.0);
  }

  /** From a point in the arena, the reading lands on a wall without leaving
      the arena: travelling the reported distance along the heading ends on
      one of the four walls, inside the closed arena. */
  lemma DistToBoxReachesWall(t: Trig, p: Point, h: real)
    requires Lawful(t) && ZeroLaw(t) && 0.0 <= h < 360.0
    requires InArena(p)
    ensures var q := RayEnd(t, p, h, DistToBox(t, p, h)); InArena(q) && OnWall(q)
  {
    var s, c := t.sin(h), t.cos(h);
    CardinalTrig(t, h);
    var r := WallDistance(p, h, s, c);
    WallDistanceIsNearestLimit(p, h, s, c);
    assert r >= 0.0;
    AxisWithin(p.x, Arena.minX, Arena.maxX, c, r);
    AxisWithin(p.y, Arena.minY, Arena.maxY, s, r);
  }

  /** The sonar positions for a front edge, left first: each front corner
      moved 30 mm along the edge towards the other corner, the offset
      rounded to whole millimetres. */
  function SonarsOnEdge(t: Trig, frontRight: Point, frontLeft: Point): (Point, Point) {
    var edge := FromPoints(t, frontLeft, frontRight);
    var leftOffset := Vector(SonarInset, edge.theta).ToPoint(t);
    var rightOffset := Vector(SonarInset, edge.theta + 180.0).ToPoint(t);
    (frontLeft.Plus(leftOffset), frontRight.Plus(rightOffset))
  }

  /** The sonar positions of a robot at `pose`, left first. */
  function SonarPositions(t: Trig, pose: Pose): (Point, Point) {
    var (frontRight, frontLeft) := FrontEdge(t, RobotBox(pose));
    SonarsOnEdge(t, frontRight, frontLeft)
  }

  /** The two sonars are moved in from their corners by exactly opposite
      offsets, each within half a millimetre of 30 mm along the direction
      from the left corner to the right one. */
  lemma SonarOffsetsOpposite(t: Trig, frontRight: Point, frontLeft: Point)
    requires Lawful(t)
    ensures var (left, right) := SonarsOnEdge(t, frontRight, frontLeft);
      var theta := FromPoints(t, frontLeft, frontRight).theta;
      && right.Minus(frontRight) == left.Minus(frontLeft).Negated()
      && Abs(left.x - frontLeft.x - SonarInset * t.cos(theta)) <= 0.5
      && Abs(left.y - frontLeft.y - SonarInset * t.sin(theta)) <= 0.5
  {
    var theta := FromPoints(t, frontLeft, frontRight).theta;
    ToPointHalfTurn(t, SonarInset, theta);
    ToPointNear(t, Vector(SonarInset, theta));
    var lo := Vector(SonarInset, theta).ToPoint(t);
    var ro := Vector(SonarInset, theta + 180.0).ToPoint(t);
    assert frontLeft.Plus(lo).Minus(frontLeft) == lo;
    assert frontRight.Plus(ro).Minus(frontRight) == ro;
  }

  /** A sonar reading in centimetres: the wall distance divided by ten. */
  function Reading(t: Trig, sonar: Point, h: real): real
    requires Lawful(t) && ZeroLaw(t) && 0.0 <= h < 360.0
  {
    DistToBox(t, sonar, h) / 10.0
  }

  /** Ten times a reading, in millimetres along the heading, reaches a wall
      from a sonar in the arena. */
  lemma ReadingReachesWall(t: Trig, sonar: Point, h: real)
    requires Lawful(t) && ZeroLaw(t) && 0.0 <= h < 360.0
    requires InArena(sonar)
    ensures Reading(t, sonar, h) >= 0.0
    ensures var q := RayEnd(t, sonar, h, 10.0 * Reading(t, sonar, h)); InArena(q) && OnWall(q)
  {
    DistToBoxReachesWall(t, sonar, h);
    assert 10.0 * Reading(t, sonar, h) == DistToBox(t, sonar, h);
  }

  /** The left and right readings of a robot at `pose`. */
  function SonarReadings(t: Trig, pose: Pose): (readings: (real, real))
    requires Lawful(t) && ZeroLaw(t) && 0.0 <= pose.heading < 360.0
  {
    var (left, right) := SonarPositions(t, pose);
    (Reading(t, left, pose.heading), Reading(t, right, pose.heading))
  }
}
