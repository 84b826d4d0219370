/**
  The kinematic core of the simulator: the per-frame pose update driven by a
  (left, right) wheel-power pair, the arena bounds and the crash test, and
  the frame loop of a motor command with its two crash policies.
 */
module Kinematics {
  import opened Numerics
  import opened Geometry

  // Motor powers
  const Forward: int := 1
  const Backward: int := -1
  const Stop: int := 0

  // Physics constants
  const Fps: int := 60
  const DegreesPerFrame: real := 0.98
  const SpeedPerPower: int := 1
  /** Pivoting turns at half the spin rate. */
  const PivotDegreesPerFrame: real := DegreesPerFrame / 2.0
  /** 75 mm in 6 seconds at 60 frames per second. */
  const PivotForwardPerFrame: real := 0.208

  // Robot and arena dimensions in millimetres
  const RobotSize: real := 200.0
  const RobotWidth: real := RobotSize
  const RobotHeight: real := RobotSize
  const BoxWidth: real := 2000.0
  const BoxHeight: real := 1000.0
  const Origin: Point := Point(0.0, 0.0)

  /** Position of the robot's centre and its heading in degrees. */
  datatype Pose = Pose(x: real, y: real, heading: real)

  /** The starting pose, also the pose a crash resets to in debug mode. */
  const Home: Pose := Pose(Origin.x, Origin.y, 0.0)

  /** The ways a core operation fails: a power pair the update rule does not
      accept, a frame that ends with a corner outside the arena (strict
      mode), and an obstacle index past the end of the specification table. */
  datatype Error = InvalidCommand | Collision | ObstacleIndexOutOfRange

  datatype Result<T> = Ok(value: T) | Fail(error: Error)

  /** How a state-changing operation ended: normally, or by raising. */
  datatype Outcome = Completed | Raised(error: Error)

  /** The power pairs the update rule handles: equal powers, opposite
      powers, or one wheel stopped while the other runs at power 1 either way.
      Out-of-range pairs such as (2, 2) or (2, -2) are accepted too. */
  predicate Accepted(left: int, right: int) {
    || left == right
    || left == -right
    || (left == 0 && AbsInt(right) == 1)
    || (right == 0 && AbsInt(left) == 1)
  }

  /** Millimetres per frame when both wheels run at `power`. */
  function Speed(power: int): real {
    (power * SpeedPerPower) as real
  }

  /** One frame of motion. Equal powers drive along the current heading;
      opposite powers spin in place; one stopped wheel pivots about it and
      then advances along the new heading; anything else raises. */
  function Step(t: Trig, p: Pose, left: int, right: int): (r: Result<Pose>)
    ensures r.Fail? <==> !Accepted(left, right)
    ensures r.Fail? ==> r.error == InvalidCommand
    ensures 0.0 <= p.heading < 360.0 && r.Ok? ==> 0.0 <= r.value.heading < 360.0
    ensures left == right ==> r.Ok? && r.value.heading == p.heading
    ensures left == -right && left != right ==> r.Ok? && r.value.x == p.x && r.value.y == p.y
  {
    if left == right then
      if left != 0 then
        var speed := Speed(left);
        Ok(Pose(p.x + Scale(speed, t.cos(p.heading)), p.y + Scale(speed, t.sin(p.heading)), p.heading))
      else
        Ok(p)
    else if left == -right then
      if right == 1 then
        // clockwise
        Ok(p.(heading := PyMod(p.heading - DegreesPerFrame, 360.0)))
      else
        // counter-clockwise
        Ok(p.(heading := PyMod(p.heading + DegreesPerFrame, 360.0)))
    else if (left == 0 || right == 0) && (AbsInt(left) == 1 || AbsInt(right) == 1) then
      if left == 0 && right != 0 then
        // pivot about the left wheel
        var direction := if right == 1 then -1 else 1;
        var h := PyMod(p.heading - Scale(direction as real, PivotDegreesPerFrame), 360.0);
        var advance := Scale(right as real, PivotForwardPerFrame);
        Ok(Pose(p.x + Scale(advance, t.cos(h)), p.y + Scale(advance, t.sin(h)), h))
      else
        // pivot about the right wheel
        var direction := if left == 1 then 1 else -1;
        var h := PyMod(p.heading + Scale(direction as real, PivotDegreesPerFrame), 360.0);
        var advance := Scale(left as real, PivotForwardPerFrame);
        Ok(Pose(p.x + Scale(advance, t.cos(h)), p.y + Scale(advance, t.sin(h)), h))
    else
      Fail(InvalidCommand)
  }

  /** Driving straight, as the update rule computes it. */
  lemma StepStraight(t: Trig, p: Pose, power: int)
    ensures Step(t, p, power, power) ==
      if power != 0 then Ok(Pose(p.x + Scale(Speed(power), t.cos(p.heading)), p.y + Scale(Speed(power), t.sin(p.heading)), p.heading))
      else Ok(p)
  {
  }

  /** Spinning in place, as the update rule computes it. */
  lemma StepSpin(t: Trig, p: Pose, left: int, right: int)
    requires left == -right && left != right
    ensures Step(t, p, left, right) ==
      if right == 1 then Ok(p.(heading := PyMod(p.heading - DegreesPerFrame, 360.0)))
      else Ok(p.(heading := PyMod(p.heading + DegreesPerFrame, 360.0)))
  {
  }

  /** The pivot about a stopped left wheel, as the update rule computes it. */
  lemma StepPivotLeft(t: Trig, p: Pose, right: int)
    requires right == Forward || right == Backward
    ensures var direction := if right == 1 then -1 else 1;
      var h := PyMod(p.heading - Scale(direction as real, PivotDegreesPerFrame), 360.0);
      Step(t, p, 0, right) == Ok(Pose(p.x + Scale(Scale(right as real, PivotForwardPerFrame), t.cos(h)),
                                      p.y + Scale(Scale(right as real, PivotForwardPerFrame), t.sin(h)), h))
  {
  }

  /** The pivot about a stopped right wheel, as the update rule computes it. */
  lemma StepPivotRight(t: Trig, p: Pose, left: int)
    requires left == Forward || left == Backward
    ensures var direction := if left == 1 then 1 else -1;
      var h := PyMod(p.heading + Scale(direction as real, PivotDegreesPerFrame), 360.0);
      Step(t, p, left, 0) == Ok(Pose(p.x + Scale(Scale(left as real, PivotForwardPerFrame), t.cos(h)),
                                     p.y + Scale(Scale(left as real, PivotForwardPerFrame), t.sin(h)), h))
  {
  }

  /** Both wheels stopped: nothing moves. */
  lemma StopChangesNothing(t: Trig, p: Pose)
    ensures Step(t, p, Stop, Stop) == Ok(p)
  {
  }

  /** Driving straight and then back at the opposite power returns to the
      starting pose. */
  lemma StraightThenBack(t: Trig, p: Pose, power: int)
    ensures Step(t, p, power, power).Ok?
    ensures Step(t, Step(t, p, power, power).value, -power, -power) == Ok(p)
  {
    var k := Speed(power);
    assert Speed(-power) == -k;
    assert Scale(-k, t.cos(p.heading)) == -Scale(k, t.cos(p.heading));
    assert Scale(-k, t.sin(p.heading)) == -Scale(k, t.sin(p.heading));
  }

  /** A unit spin one way undone by a unit spin the other way. */
  lemma {:induction false} SpinThenBack(t: Trig, p: Pose, power: int)
    requires power == Forward || power == Backward
    requires 0.0 <= p.heading < 360.0
    ensures Step(t, p, power, -power).Ok?
    ensures Step(t, Step(t, p, power, -power).value, -power, power) == Ok(p)
  {
    var d := power as real * DegreesPerFrame;
    var q := Step(t, p, power, -power).value;
    assert q.heading == PyMod(p.heading + d, 360.0);
    PyModAddReduced(p.heading, d - d, 360.0);
    PyModAddReduced(p.heading + d, -d, 360.0);
    PyModOfReduced(p.heading, 360.0);
  }

  /** Opposite powers turn the heading by the spin rate, in the direction of
      the left wheel for unit powers. Any other opposite pair whose right power
      is not 1, such as (-2, 2), turns counter-clockwise. */
  lemma SpinDirection(t: Trig, p: Pose, left: int)
    requires left != 0
    ensures -left != 1 ==> Step(t, p, left, -left) == Ok(p.(heading := PyMod(p.heading + DegreesPerFrame, 360.0)))
    ensures left == Forward || left == Backward ==>
      Step(t, p, left, -left) == Ok(p.(heading := PyMod(p.heading + left as real * DegreesPerFrame, 360.0)))
  {
  }

  /** Pivoting about either stopped wheel turns the heading by half the spin
      rate towards the sign of the moving wheel's power, and then advances
      0.208 mm times that power along the new heading. */
  lemma PivotFollowsMovingWheel(t: Trig, p: Pose, left: int, right: int)
    requires (left == 0 && AbsInt(right) == 1) || (right == 0 && AbsInt(left) == 1)
    ensures var power := left + right;
      var h := PyMod(p.heading + Scale(power as real, PivotDegreesPerFrame), 360.0);
      Step(t, p, left, right) ==
        Ok(Pose(p.x + Scale(Scale(power as real, PivotForwardPerFrame), t.cos(h)),
                p.y + Scale(Scale(power as real, PivotForwardPerFrame), t.sin(h)), h))
  {
  }

  /** n frames of the update rule with no crash test. */
  function Iterate(t: Trig, p: Pose, left: int, right: int, n: nat): Result<Pose>
    decreases n
  {
    if n == 0 then Ok(p)
    else
      match Step(t, p, left, right)
      case Fail(e) => Fail(e)
      case Ok(q) => Iterate(t, q, left, right, n - 1)
  }

  /** n copies of d added up: the distance or angle n equal frames cover. */
  function Repeat(n: nat, d: real): real
    decreases n
  {
    if n == 0 then 0.0 else d + Repeat(n - 1, d)
  }

  /** Adding up n copies of d is multiplying d by n. */
  lemma {:induction false} RepeatIsProduct(n: nat, d: real)
    ensures Repeat(n, d) == n as real * d
    decreases n
  {
    if n > 0 {
      RepeatIsProduct(n - 1, d);
      MulSucc(n, d, n as real * d, (n - 1) as real * d);
    }
  }

  lemma MulSucc(n: int, k: real, nk: real, rk: real)
    requires nk == n as real * k && rk == (n - 1) as real * k
    ensures k + rk == nk
  {
  }

  /** Driving straight for n frames repeats the same displacement n times
      along the unchanged heading. */
  lemma {:induction false} IterateStraight(t: Trig, p: Pose, power: int, n: nat)
    ensures Iterate(t, p, power, power, n) ==
      Ok(Pose(p.x + Repeat(n, Scale(Speed(power), t.cos(p.heading))),
              p.y + Repeat(n, Scale(Speed(power), t.sin(p.heading))),
              p.heading))
    decreases n
  {
    var dx, dy := Scale(Speed(power), t.cos(p.heading)), Scale(Speed(power), t.sin(p.heading));
    if n > 0 {
      var q := Pose(p.x + dx, p.y + dy, p.heading);
      if power == 0 {
        assert Speed(power) == 0.0;
        assert dx == 0.0 && dy == 0.0;
      }
      assert Step(t, p, power, power) == Ok(q);
      assert Iterate(t, p, power, power, n) == Iterate(t, q, power, power, n - 1);
      IterateStraight(t, q, power, n - 1);
    }
  }

  /** Spinning for n frames keeps the position and turns the heading by n
      times the spin rate, reduced to [0, 360). */
  lemma {:induction false} IterateSpin(t: Trig, p: Pose, power: int, n: nat)
    requires power == Forward || power == Backward
    requires 0.0 <= p.heading < 360.0
    ensures Iterate(t, p, power, -power, n) ==
      Ok(Pose(p.x, p.y, PyMod(p.heading + Repeat(n, power as real * DegreesPerFrame), 360.0)))
    decreases n
  {
    var d := power as real * DegreesPerFrame;
    if n == 0 {
      PyModOfReduced(p.heading, 360.0);
    } else {
      var q := p.(heading := PyMod(p.heading + d, 360.0));
      SpinDirection(t, p, power);
      assert Step(t, p, power, -power) == Ok(q);
      assert Iterate(t, p, power, -power, n) == Iterate(t, q, power, -power, n - 1);
      IterateSpin(t, q, power, n - 1);
      PyModAddReduced(p.heading + d, Repeat(n - 1, d), 360.0);
      assert p.heading + d + Repeat(n - 1, d) == p.heading + Repeat(n, d);
    }
  }

  /** Pivoting about a stopped wheel for n frames always succeeds and turns
      the heading by n times half the spin rate, signed by the moving
      wheel's power, reduced to [0, 360). */
  lemma {:induction false} IteratePivotHeading(t: Trig, p: Pose, left: int, right: int, n: nat)
    requires (left == 0 && AbsInt(right) == 1) || (right == 0 && AbsInt(left) == 1)
    requires 0.0 <= p.heading < 360.0
    ensures Iterate(t, p, left, right, n).Ok?
    ensures Iterate(t, p, left, right, n).value.heading ==
      PyMod(p.heading + Repeat(n, Scale((left + right) as real, PivotDegreesPerFrame)), 360.0)
    decreases n
  {
    var d := Scale((left + right) as real, PivotDegreesPerFrame);
    if n == 0 {
      PyModOfReduced(p.heading, 360.0);
    } else {
      PivotFollowsMovingWheel(t, p, left, right);
      var q := Step(t, p, left, right).value;
      assert q.heading == PyMod(p.heading + d, 360.0);
      assert Iterate(t, p, left, right, n) == Iterate(t, q, left, right, n - 1);
      IteratePivotHeading(t, q, left, right, n - 1);
      PyModAddReduced(p.heading + d, Repeat(n - 1, d), 360.0);
      assert p.heading + d + Repeat(n - 1, d) == p.heading + Repeat(n, d);
    }
  }

  /** The crash limits of the arena. */
  datatype Bounds = Bounds(minX: real, maxX: real, minY: real, maxY: real)

  /** Limits of a width by height arena centred on `origin`. */
  function BoxBoundaries(width: real, height: real, origin: Point): (b: Bounds)
    ensures b.maxX - b.minX == width && b.maxY - b.minY == height
    ensures b.minX + b.maxX == 2.0 * origin.x && b.minY + b.maxY == 2.0 * origin.y
  {
    Bounds(origin.x - width / 2.0, width / 2.0 + origin.x, origin.y - height / 2.0, height / 2.0 + origin.y)
  }

  const Arena: Bounds := BoxBoundaries(BoxWidth, BoxHeight, Origin)

  /** A point strictly beyond one of the limits; a point on a wall is not. */
  predicate OutOfBounds(b: Bounds, p: Point)
    ensures OutOfBounds(b, p) <==> !(b.minX <= p.x <= b.maxX && b.minY <= p.y <= b.maxY)
  {
    var xcrash := p.x > b.maxX || p.x < b.minX;
    var ycrash := p.y > b.maxY || p.y < b.minY;
    xcrash || ycrash
  }

  /** The robot's chassis at a pose. */
  function RobotBox(pose: Pose): Box {
    Box(Point(pose.x, pose.y), RobotWidth, RobotHeight, pose.heading)
  }

  /** Some corner lies outside the arena. */
  predicate AnyCornerOut(c: Corners) {
    || OutOfBounds(Arena, c.frontRight)
    || OutOfBounds(Arena, c.frontLeft)
    || OutOfBounds(Arena, c.backLeft)
    || OutOfBounds(Arena, c.backRight)
  }

  /** A crash: some corner of the chassis lies outside the arena. */
  predicate Crashed(t: Trig, pose: Pose) {
    AnyCornerOut(BoxCorners(t, RobotBox(pose)))
  }

  lemma RoundBounded(x: real, k: int)
    requires -(k as real) <= x <= k as real
    ensures -k <= Round(x) <= k
  {
    RoundNearest(x);
  }

  /** A corner of a box centred on the origin whose half-diagonal is below
      150 mm lies within 150 mm of the origin along each axis. */
  lemma {:induction false} CornerNearCenter(t: Trig, d: real, angle: real)
    requires Lawful(t)
    requires 0.0 <= d < 150.0
    ensures -150.0 <= CornerAt(t, Origin, d, angle).x <= 150.0
    ensures -150.0 <= CornerAt(t, Origin, d, angle).y <= 150.0
  {
    var c, s := t.cos(angle), t.sin(angle);
    assert -1.0 <= c <= 1.0 && -1.0 <= s <= 1.0;
    BoundedProduct(d, c, 150.0);
    BoundedProduct(d, s, 150.0);
    RoundBounded(Scale(d, c), 150);
    RoundBounded(Scale(d, s), 150);
  }

  lemma BoundedProduct(d: real, c: real, m: real)
    requires 0.0 <= d < m && -1.0 <= c <= 1.0
    ensures -m <= Scale(d, c) <= m
  {
    if c >= 0.0 {
      assert d * c <= d * 1.0;
    } else {
      assert d * c >= d * -1.0;
    }
  }

  /** The starting pose is not a crash, so the debug-mode reset always lands
      the robot inside the arena. */
  lemma {:induction false} HomeIsCrashFree(t: Trig)
    requires Lawful(t) && SqrtLaw(t)
    ensures !Crashed(t, Home)
  {
    var b := RobotBox(Home);
    var v := Square(b.width) + Square(b.height);
    assert v == 80000.0;
    var root := t.sqrt(v);
    assert root >= 0.0 && root * root == v;
    if root >= 300.0 {
      assert false;
    }
    assert HalfDiagonal(t, b) == root / 2.0;
    var base := BaseAngle(t, b);
    var d := HalfDiagonal(t, b);
    CornerNearCenter(t, d, b.heading + 360.0 - base);
    CornerNearCenter(t, d, b.heading + base);
    CornerNearCenter(t, d, b.heading + 180.0 - base);
    CornerNearCenter(t, d, b.heading + 180.0 + base);
  }

  /** The crash test the simulator applies after every frame. */
  function CrashTest(t: Trig): Pose -> bool {
    pose => Crashed(t, pose)
  }

  /** One frame of a motor command: the update, then the crash test
      `crashed`. A crash raises in strict mode, leaving the crashed pose in
      place, and resets the pose to Home in debug mode. The frame loop is
      stated for any crash test; the simulator runs it with CrashTest. */
  function Frame(t: Trig, crashed: Pose -> bool, strict: bool, p: Pose, left: int, right: int): (Pose, Outcome) {
    match Step(t, p, left, right)
    case Fail(e) => (p, Raised(e))
    case Ok(q) =>
      if !crashed(q) then (q, Completed)
      else if strict then (q, Raised(Collision))
      else (Home, Completed)
  }

  /** The frame loop after a first frame that ended in pose q with outcome o:
      it stops there if o raised, and otherwise runs the remaining frames
      from q. */
  lemma RunFramesStep(t: Trig, crashed: Pose -> bool, strict: bool, p: Pose, q: Pose, o: Outcome, left: int, right: int, n: nat)
    requires n > 0 && (q, o) == Frame(t, crashed, strict, p, left, right)
    ensures o.Raised? ==> RunFrames(t, crashed, strict, p, left, right, n) == (q, o)
    ensures !o.Raised? ==> RunFrames(t, crashed, strict, p, left, right, n) == RunFrames(t, crashed, strict, q, left, right, n - 1)
  {
  }

  /** n frames of a motor command, stopping at the first frame that raises. */
  function RunFrames(t: Trig, crashed: Pose -> bool, strict: bool, p: Pose, left: int, right: int, n: nat): (res: (Pose, Outcome))
    decreases n
    ensures 0.0 <= p.heading < 360.0 ==> 0.0 <= res.0.heading < 360.0
    ensures !strict ==> (res.1 == Completed <==> n == 0 || Accepted(left, right))
    ensures res.1 == Completed || res.1 == Raised(InvalidCommand) || (strict && res.1 == Raised(Collision))
  {
    if n == 0 then (p, Completed)
    else
      var first := Frame(t, crashed, strict, p, left, right);
      if first.1.Raised? then first else RunFrames(t, crashed, strict, first.0, left, right, n - 1)
  }

  /** A command that the update rule rejects raises on its first frame and
      leaves the pose alone; with no frames to run it does nothing at all. */
  lemma RejectedCommand(t: Trig, crashed: Pose -> bool, strict: bool, p: Pose, left: int, right: int, n: nat)
    requires !Accepted(left, right)
    ensures RunFrames(t, crashed, strict, p, left, right, n) ==
      if n == 0 then (p, Completed) else (p, Raised(InvalidCommand))
  {
  }

  /** Every one of the first k frames of the plain update succeeds and passes
      the crash test. */
  ghost predicate CrashFreeFor(t: Trig, crashed: Pose -> bool, p: Pose, left: int, right: int, k: nat) {
    forall j: nat :: 1 <= j <= k ==>
      Iterate(t, p, left, right, j).Ok? && !crashed(Iterate(t, p, left, right, j).value)
  }

  /** One crash-free update in front of k crash-free updates gives k + 1. */
  lemma CrashFreeExtend(t: Trig, crashed: Pose -> bool, p: Pose, q: Pose, left: int, right: int, k: nat)
    requires Step(t, p, left, right) == Ok(q) && !crashed(q)
    requires CrashFreeFor(t, crashed, q, left, right, k)
    ensures CrashFreeFor(t, crashed, p, left, right, k + 1)
  {
    forall j: nat | 1 <= j <= k + 1
      ensures Iterate(t, p, left, right, j).Ok? && !crashed(Iterate(t, p, left, right, j).value)
    {
      assert Iterate(t, p, left, right, j) == Iterate(t, q, left, right, j - 1);
    }
  }

  /** In strict mode a command that completes ran all n updates, none of which
      crashed, and ended where n plain updates end. */
  lemma {:induction false} StrictCompletedRun(t: Trig, crashed: Pose -> bool, p: Pose, left: int, right: int, n: nat)
    requires RunFrames(t, crashed, true, p, left, right, n).1 == Completed
    ensures Iterate(t, p, left, right, n) == Ok(RunFrames(t, crashed, true, p, left, right, n).0)
    ensures CrashFreeFor(t, crashed, p, left, right, n)
    decreases n
  {
    if n > 0 {
      var q := Step(t, p, left, right).value;
      StrictCompletedRun(t, crashed, q, left, right, n - 1);
      CrashFreeExtend(t, crashed, p, q, left, right, n - 1);
    }
  }

  /** In strict mode a collision is raised on the first frame that crashes:
      the pose is the crashed pose of frame k, and frames before k did not
      crash; later frames never run. */
  lemma {:induction false} StrictCollisionRun(t: Trig, crashed: Pose -> bool, p: Pose, left: int, right: int, n: nat)
    requires RunFrames(t, crashed, true, p, left, right, n).1 == Raised(Collision)
    ensures exists k: nat ::
      && 1 <= k <= n
      && CrashFreeFor(t, crashed, p, left, right, k - 1)
      && Iterate(t, p, left, right, k) == Ok(RunFrames(t, crashed, true, p, left, right, n).0)
      && crashed(RunFrames(t, crashed, true, p, left, right, n).0)
    decreases n
  {
    var q := Step(t, p, left, right).value;
    var final := RunFrames(t, crashed, true, p, left, right, n).0;
    if crashed(q) {
      assert Iterate(t, p, left, right, 1) == Ok(q);
      assert CrashFreeFor(t, crashed, p, left, right, 0);
    } else {
      StrictCollisionRun(t, crashed, q, left, right, n - 1);
      var k: nat :| && 1 <= k <= n - 1
                    && CrashFreeFor(t, crashed, q, left, right, k - 1)
                    && Iterate(t, q, left, right, k) == Ok(final)
                    && crashed(final);
      CrashFreeExtend(t, crashed, p, q, left, right, k - 1);
      assert Iterate(t, p, left, right, k + 1) == Iterate(t, q, left, right, k);
    }
  }

  /** A command that completes at least one frame ends with the robot passing
      the crash test, in either mode, provided Home passes it. */
  lemma {:induction false} CompletedRunPassesTest(t: Trig, crashed: Pose -> bool, strict: bool, p: Pose, left: int, right: int, n: nat)
    requires !crashed(Home)
    requires n > 0
    requires RunFrames(t, crashed, strict, p, left, right, n).1 == Completed
    ensures !crashed(RunFrames(t, crashed, strict, p, left, right, n).0)
    decreases n
  {
    var (q, o) := Frame(t, crashed, strict, p, left, right);
    if n > 1 {
      CompletedRunPassesTest(t, crashed, strict, q, left, right, n - 1);
    }
  }

  /** With the simulator's crash test, a command that completes at least one
      frame ends with every corner of the robot inside the arena. */
  lemma CompletedRunEndsInside(t: Trig, strict: bool, p: Pose, left: int, right: int, n: nat)
    requires Lawful(t) && SqrtLaw(t)
    requires n > 0
    requires RunFrames(t, CrashTest(t), strict, p, left, right, n).1 == Completed
    ensures !Crashed(t, RunFrames(t, CrashTest(t), strict, p, left, right, n).0)
  {
    HomeIsCrashFree(t);
    CompletedRunPassesTest(t, CrashTest(t), strict, p, left, right, n);
  }

  /** The number of frames a command of `seconds` runs: Python's
      round(seconds * fps), and none when that is not positive. */
  function FrameCount(seconds: real): nat {
    var k := Round(Scale(seconds, Fps as real));
    if k < 0 then 0 else k
  }

  /** The frame count is the nearest whole number of frames to the
      command's duration, ties to even, or zero for a duration under half a
      frame. */
  lemma FrameCountNearest(seconds: real)
    ensures var n := FrameCount(seconds);
      var frames := seconds * Fps as real;
      && (frames >= 0.5 ==> Abs(n as real - frames) <= 0.5 && (Abs(n as real - frames) == 0.5 ==> n % 2 == 0))
      && (frames < 0.5 ==> n == 0)
  {
    RoundNearest(Scale(seconds, Fps as real));
  }
}
