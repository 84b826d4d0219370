/**
  The simulator driver: the robot's mutable pose, the crash limits of the
  arena, the static obstacles, and the operations that move the robot frame
  by frame and read its sonars. Each method is proved against the pure
  definitions of the Kinematics and Sensing modules.
 */
module Driver {
  import opened Numerics
  import opened Geometry
  import opened Kinematics
  import opened Sensing

  /** One row of the obstacle table: a rectangle with its name, size,
      centre and heading. */
  datatype ObstacleSpec = ObstacleSpec(name: string, width: real, height: real, x: real, y: real, heading: real)

  /** The obstacle table, in the order obstacles are placed. */
  const ObstacleSpecs: seq<ObstacleSpec> := [
    ObstacleSpec("Square", 70.0, 70.0, -300.0, 180.0, 30.0),
    ObstacleSpec("Short Rectangle", 100.0, 120.0, 400.0, 50.0, 0.0),
    ObstacleSpec("Long Rectangle", 70.0, 250.0, -100.0, -170.0, 60.0)
  ]

  /** At most this many obstacles are requested from the table, which holds
      fewer. */
  const MaxObstacles: int := 5

  function ObstacleOf(spec: ObstacleSpec): Obstacle {
    Obstacle(Box(Point(spec.x, spec.y), spec.width, spec.height, spec.heading))
  }

  /** The obstacles placed so far and how placement ended. */
  datatype Placement = Placement(obstacles: seq<Obstacle>, outcome: Outcome)

  /** Placing the first k table rows one after another: the rows present in
      the table are placed in order, and reaching past its end raises after
      every row has been placed. */
  function Placed(k: nat): (r: Placement)
    ensures |r.obstacles| == Min(k, |ObstacleSpecs|)
    ensures forall i :: 0 <= i < |r.obstacles| ==> r.obstacles[i] == ObstacleOf(ObstacleSpecs[i])
    ensures r.outcome == Completed <==> k <= |ObstacleSpecs|
    ensures r.outcome == Completed || r.outcome == Raised(ObstacleIndexOutOfRange)
  {
    if k == 0 then Placement([], Completed)
    else
      var prev := Placed(k - 1);
      if prev.outcome.Raised? then prev
      else if k - 1 < |ObstacleSpecs| then Placement(prev.obstacles + [ObstacleOf(ObstacleSpecs[k - 1])], Completed)
      else Placement(prev.obstacles, Raised(ObstacleIndexOutOfRange))
  }

  /** The loop bound of obstacle placement: min(n, 5), and no iterations
      when that is not positive. */
  function ObstacleCount(n: int): (k: nat)
    ensures k <= MaxObstacles && (k == n || (n <= 0 && k == 0) || (n > MaxObstacles && k == MaxObstacles))
  {
    var m := Min(n, MaxObstacles);
    if m < 0 then 0 else m
  }

  /** What placing obstacles for a request of n leaves: all the table's
      obstacles, in order, up to n; a request of four or five places the
      three rows and then raises. */
  lemma GeneratedObstacles(n: int)
    ensures var r := Placed(ObstacleCount(n));
      && |r.obstacles| == (if n <= 0 then 0 else Min(n, |ObstacleSpecs|))
      && (r.outcome == Completed <==> n <= |ObstacleSpecs|)
      && (n > |ObstacleSpecs| ==> r.outcome == Raised(ObstacleIndexOutOfRange))
  {
  }

  /** The loop bound the obstacle table evidently calls for: min(n, the
      number of rows), and no iterations when that is not positive. */
  function TableObstacleCount(n: int): (k: nat)
    ensures k <= |ObstacleSpecs|
    ensures k == n || (n <= 0 && k == 0) || (n > |ObstacleSpecs| && k == |ObstacleSpecs|)
  {
    var m := Min(n, |ObstacleSpecs|);
    if m < 0 then 0 else m
  }

  /** Bounded by the table, placement never raises: every request places
      the first min(n, 3) rows, in order. */
  lemma TableBoundedPlacement(n: int)
    ensures var r := Placed(TableObstacleCount(n));
      && r.outcome == Completed
      && |r.obstacles| == (if n <= 0 then 0 else Min(n, |ObstacleSpecs|))
      && (forall i :: 0 <= i < |r.obstacles| ==> r.obstacles[i] == ObstacleOf(ObstacleSpecs[i]))
  {
  }

  /** The simulator's state. */
  class SimulatorDriver {
    /** The trigonometry library the simulator calls. */
    const trig: Trig
    /** The global debug flag: a crash resets the robot instead of raising. */
    const debugMode: bool
    /** The number of obstacles requested. */
    const nObstacles: int

    var x: real
    var y: real
    var heading: real

    var maxXBox: real
    var minXBox: real
    var maxYBox: real
    var minYBox: real

    var obstacles: seq<Obstacle>

    function CurrentPose(): Pose
      reads this
    {
      Pose(x, y, heading)
    }

    function Boundaries(): Bounds
      reads this
    {
      Bounds(minXBox, maxXBox, minYBox, maxYBox)
    }

    /** The trigonometry obeys its laws, the crash limits are those of the
        arena, and the heading is reduced to [0, 360). */
    ghost predicate Valid()
      reads this
    {
      && Lawful(trig) && ZeroLaw(trig) && SqrtLaw(trig)
      && Boundaries() == Arena
      && 0.0 <= heading < 360.0
    }

    /** A driver at the origin facing along +x, with the arena's crash
        limits and no obstacles yet. */
    constructor (trig: Trig, debugMode: bool, nObstacles: int)
      requires Lawful(trig) && ZeroLaw(trig) && SqrtLaw(trig)
      ensures Valid()
      ensures this.trig == trig && this.debugMode == debugMode && this.nObstacles == nObstacles
      ensures CurrentPose() == Home && obstacles == []
    {
      this.trig := trig;
      this.debugMode := debugMode;
      this.nObstacles := nObstacles;
      x := Origin.x;
      y := Origin.y;
      heading := 0.0;
      obstacles := [];
      new;
      CalculateBoxBoundaries();
    }

    /** Sets the crash limits to the walls of the arena centred on the
        origin. */
    method CalculateBoxBoundaries()
      modifies `maxXBox, `minXBox, `maxYBox, `minYBox
      ensures Boundaries() == BoxBoundaries(BoxWidth, BoxHeight, Origin)
      ensures maxXBox - minXBox == BoxWidth && maxYBox - minYBox == BoxHeight
    {
      maxXBox := BoxWidth / 2.0 + Origin.x;
      minXBox := Origin.x - BoxWidth / 2.0;
      maxYBox := BoxHeight / 2.0 + Origin.y;
      minYBox := Origin.y - BoxHeight / 2.0;
    }

    /** The robot's chassis: 200 mm square, centred on the robot and turned
        to its heading. */
    function GetRobotBox(): (b: Box)
      reads this
      ensures b == RobotBox(CurrentPose())
      ensures b.center == Point(x, y) && b.heading == heading
      ensures b.width == RobotSize && b.height == RobotSize
    {
      Box(Point(x, y), RobotWidth, RobotHeight, heading)
    }

    /** Appends the first min(n, 5) table rows as obstacles, in table order;
        past the end of the table it raises, keeping the rows placed. */
    method GenerateObstacles() returns (outcome: Outcome)
      modifies `obstacles
      ensures obstacles == old(obstacles) + Placed(ObstacleCount(nObstacles)).obstacles
      ensures outcome == Placed(ObstacleCount(nObstacles)).outcome
    {
      var count := ObstacleCount(nObstacles);
      outcome := Completed;
      var i := 0;
      while i < count
        invariant 0 <= i <= count
        invariant Placed(i).outcome == Completed
        invariant obstacles == old(obstacles) + Placed(i).obstacles
      {
        if i >= |ObstacleSpecs| {
          PlacedPastTable(count);
          outcome := Raised(ObstacleIndexOutOfRange);
          return;
        }
        var spec := ObstacleSpecs[i];
        obstacles := obstacles + [ObstacleOf(spec)];
        i := i + 1;
      }
    }

    /** Whether some corner of the robot lies beyond a crash limit; a corner
        on a wall is not a crash. */
    method DetectCrash() returns (crashed: bool)
      requires Valid()
      ensures crashed == Crashed(trig, CurrentPose())
    {
      var robotBox := GetRobotBox();
      var c := BoxCorners(trig, robotBox);
      var corners := CornerList(c);
      for i := 0 to |corners|
        invariant forall j :: 0 <= j < i ==> !OutOfBounds(Arena, corners[j])
      {
        var corner := corners[i];
        var xcrash := corner.x > maxXBox || corner.x < minXBox;
        var ycrash := corner.y > maxYBox || corner.y < minYBox;
        if xcrash || ycrash {
          assert OutOfBounds(Arena, corners[i]);
          assert AnyCornerOut(c);
          return true;
        }
      }
      assert !OutOfBounds(Arena, corners[0]) && !OutOfBounds(Arena, corners[1]);
      assert !OutOfBounds(Arena, corners[2]) && !OutOfBounds(Arena, corners[3]);
      return false;
    }

    /** One frame of motion for the power pair: the pose becomes the one
        the update rule gives, or, for a pair the rule rejects, stays and the
        frame raises. */
    method UpdatePosition(left: int, right: int) returns (outcome: Outcome)
      requires Valid()
      modifies `x, `y, `heading
      ensures Valid()
      ensures match Step(trig, old(CurrentPose()), left, right)
        case Ok(q) => CurrentPose() == q && outcome == Completed
        case Fail(e) => CurrentPose() == old(CurrentPose()) && outcome == Raised(e)
    {
      ghost var p := CurrentPose();
      var newX, newY, newHeading := x, y, heading;
      if left == right {
        if left != 0 {
          var speed := Speed(left);
          newX := x + Scale(speed, trig.cos(heading));
          newY := y + Scale(speed, trig.sin(heading));
        }
        StepStraight(trig, p, left);
      } else if left == -right {
        if right == 1 {
          newHeading := PyMod(heading - DegreesPerFrame, 360.0);
        } else {
          newHeading := PyMod(heading + DegreesPerFrame, 360.0);
        }
        StepSpin(trig, p, left, right);
      } else if (left == 0 || right == 0) && (AbsInt(left) == 1 || AbsInt(right) == 1) {
        if left == 0 && right != 0 {
          // pivot about the left wheel
          var direction := if right == 1 then -1 else 1;
          newHeading := PyMod(heading - Scale(direction as real, PivotDegreesPerFrame), 360.0);
          newX := x + Scale(Scale(right as real, PivotForwardPerFrame), trig.cos(newHeading));
          newY := y + Scale(Scale(right as real, PivotForwardPerFrame), trig.sin(newHeading));
          StepPivotLeft(trig, p, right);
        } else {
          // pivot about the right wheel
          var direction := if left == 1 then 1 else -1;
          newHeading := PyMod(heading + Scale(direction as real, PivotDegreesPerFrame), 360.0);
          newX := x + Scale(Scale(left as real, PivotForwardPerFrame), trig.cos(newHeading));
          newY := y + Scale(Scale(left as real, PivotForwardPerFrame), trig.sin(newHeading));
          StepPivotRight(trig, p, left);
        }
      } else {
        return Raised(InvalidCommand);
      }
      assert Step(trig, p, left, right) == Ok(Pose(newX, newY, newHeading));
      x, y, heading := newX, newY, newHeading;
      return Completed;
    }

    /** One frame of `motors`: the update, then the crash test, with the
        debug-mode reset to the origin or, in strict mode, the collision.
        `crashTest` is the simulator's crash test passed as a value. */
    method RunFrame(left: int, right: int, ghost crashTest: Pose -> bool) returns (outcome: Outcome)
      requires Valid()
      requires forall p {:trigger Crashed(trig, p)} :: crashTest(p) == Crashed(trig, p)
      modifies `x, `y, `heading
      ensures Valid()
      ensures (CurrentPose(), outcome) == Frame(trig, crashTest, !debugMode, old(CurrentPose()), left, right)
    {
      var updated := UpdatePosition(left, right);
      if updated.Raised? {
        return updated;
      }
      var crashed := DetectCrash();
      if crashed {
        if debugMode {
          x, y, heading := Home.x, Home.y, Home.heading;
        } else {
          return Raised(Collision);
        }
      }
      return Completed;
    }

    /** Runs the power pair for round(seconds * 60) frames, testing for a
        crash after each; a crash raises in strict mode and sends the robot
        back to the origin in debug mode. The pose and the outcome are those
        of the frame loop of the Kinematics module. */
    method Motors(left: int, right: int, seconds: real) returns (outcome: Outcome)
      requires Valid()
      modifies `x, `y, `heading
      ensures Valid()
      ensures (CurrentPose(), outcome) ==
        RunFrames(trig, CrashTest(trig), !debugMode, old(CurrentPose()), left, right, FrameCount(seconds))
    {
      var numFrames := FrameCount(seconds);
      outcome := RunForFrames(left, right, numFrames, CrashTest(trig));
    }

    /** The frame loop of `motors` for a given number of frames. */
    method RunForFrames(left: int, right: int, numFrames: nat, ghost crashTest: Pose -> bool) returns (outcome: Outcome)
      requires Valid()
      requires forall p {:trigger Crashed(trig, p)} :: crashTest(p) == Crashed(trig, p)
      modifies `x, `y, `heading
      ensures Valid()
      ensures (CurrentPose(), outcome) == RunFrames(trig, crashTest, !debugMode, old(CurrentPose()), left, right, numFrames)
    {
      ghost var start := CurrentPose();
      var i := 0;
      while i < numFrames
        invariant 0 <= i <= numFrames
        invariant Valid()
        invariant RunFrames(trig, crashTest, !debugMode, start, left, right, numFrames) ==
          RunFrames(trig, crashTest, !debugMode, CurrentPose(), left, right, numFrames - i)
      {
        ghost var before := CurrentPose();
        outcome := RunFrame(left, right, crashTest);
        RunFramesStep(trig, crashTest, !debugMode, before, CurrentPose(), outcome, left, right, numFrames - i);
        if outcome.Raised? {
          return;
        }
        i := i + 1;
      }
      return Completed;
    }

    /** Where the two sonars sit, left first: each front corner moved in by
        opposite offsets of about 30 mm along the front edge. */
    function GetSonarPositions(): (positions: (Point, Point))
      reads this
      requires Valid()
      ensures positions == SonarPositions(trig, CurrentPose())
      ensures var (frontRight, frontLeft) := FrontEdge(trig, GetRobotBox());
        positions.1.Minus(frontRight) == positions.0.Minus(frontLeft).Negated()
    {
      var (frontRight, frontLeft) := FrontEdge(trig, GetRobotBox());
      SonarOffsetsOpposite(trig, frontRight, frontLeft);
      SonarsOnEdge(trig, frontRight, frontLeft)
    }

    /** The left sonar's reading in centimetres: from a mount in the arena
        it is non-negative, and ten times it, in millimetres along the
        heading, reaches a wall. */
    function LeftSonar(): (r: real)
      reads this
      requires Valid()
      ensures 10.0 * r == DistToBox(trig, GetSonarPositions().0, heading)
      ensures InArena(GetSonarPositions().0) ==>
        r >= 0.0 && OnWall(RayEnd(trig, GetSonarPositions().0, heading, 10.0 * r))
    {
      var (left, _) := GetSonarPositions();
      if InArena(left) then ReadingReachesWall(trig, left, heading); Reading(trig, left, heading)
      else Reading(trig, left, heading)
    }

    /** The right sonar's reading in centimetres, with the same guarantees. */
    function RightSonar(): (r: real)
      reads this
      requires Valid()
      ensures 10.0 * r == DistToBox(trig, GetSonarPositions().1, heading)
      ensures InArena(GetSonarPositions().1) ==>
        r >= 0.0 && OnWall(RayEnd(trig, GetSonarPositions().1, heading, 10.0 * r))
    {
      var (_, right) := GetSonarPositions();
      if InArena(right) then ReadingReachesWall(trig, right, heading); Reading(trig, right, heading)
      else Reading(trig, right, heading)
    }

    /** Both readings at once, left first, equal to the two single reads. */
    function Sonars(): (readings: (real, real))
      reads this
      requires Valid()
      ensures readings == (LeftSonar(), RightSonar())
      ensures readings == SonarReadings(trig, CurrentPose())
    {
      var (left, right) := GetSonarPositions();
      (Reading(trig, left, heading), Reading(trig, right, heading))
    }
  }

  /** Once the table is exhausted, further rows add nothing and the
      placement has raised. */
  lemma {:induction false} PlacedPastTable(k: nat)
    requires k > |ObstacleSpecs|
    ensures Placed(k) == Placement(Placed(|ObstacleSpecs|).obstacles, Raised(ObstacleIndexOutOfRange))
    decreases k
  {
    if k > |ObstacleSpecs| + 1 {
      PlacedPastTable(k - 1);
    }
  }

  /** Builds a driver as the simulator's initialiser does: at the origin,
      with the arena's crash limits, and with the requested obstacles placed
      when the request is positive. A request of four or five raises after
      placing the three table rows. */
  method NewSimulatorDriver(trig: Trig, debugMode: bool, nObstacles: int) returns (driver: SimulatorDriver, outcome: Outcome)
    requires Lawful(trig) && ZeroLaw(trig) && SqrtLaw(trig)
    ensures fresh(driver) && driver.Valid()
    ensures driver.trig == trig && driver.debugMode == debugMode && driver.nObstacles == nObstacles
    ensures driver.CurrentPose() == Home
    ensures driver.obstacles == Placed(ObstacleCount(nObstacles)).obstacles
    ensures outcome == Placed(ObstacleCount(nObstacles)).outcome
  {
    driver := new SimulatorDriver(trig, debugMode, nObstacles);
    outcome := Completed;
    if nObstacles > 0 {
      outcome := driver.GenerateObstacles();
    }
  }
}
