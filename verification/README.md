# Differential-drive robot simulator: a Dafny model

This project models the core of a small educational robot simulator and
of the navigation script that drives it.

The simulator (`simulator.py`) keeps the pose of a 200 mm square
differential-drive robot in a 2000 mm by 1000 mm arena centred on the
origin. Its parts:

- **Pose update.** Each motor command is a (left, right) pair of wheel
  powers, run for `round(seconds * 60)` frames. Every frame applies one
  update rule:
  - equal powers drive straight;
  - opposite powers spin in place by 0.98 degrees;
  - one stopped wheel with the other at power 1 or -1 pivots by half that
    angle and creeps 0.208 mm;
  - any other pair raises.
- **Crash test.** After every frame the simulator tests whether a corner of
  the chassis has left the arena. A crash raises, or, with the global debug
  flag set, sends the robot back to the origin.
- **Sonars.** Two front sonars, 30 mm in from the front corners, report the
  distance in centimetres along the heading to the wall the robot faces.
- **Obstacles.** The simulator places static rectangles from a fixed table.

The navigation script (`main.py`) contributes:

- direction helpers (`inverseOf`, `sign`);
- `motorsAndWait`, which splits motor commands shorter than half a second;
- two rotation routines;
- the quadrant classification of a target vector.

Modules, one file each:

- `Numerics` (`numerics.dfy`):
  - Python's `round` (half to even) and float `%`;
  - the trigonometry library as a value `Trig`, with the laws the model uses.
- `Geometry` (`geometry.dfy`): points, polar vectors, boxes and their
  corners, obstacles.
- `Kinematics` (`kinematics.dfy`):
  - the update rule `Step`;
  - the crash limits and crash test;
  - the frame loop `RunFrames`, for the strict and the debug policy.
- `Sensing` (`sensing.dfy`): the wall distance and the sonar placement.
- `Navigation` (`navigation.dfy`): the script's helpers. Motor commands are
  modelled as the list of `robot.motors` calls they issue.
- `Driver` (`driver.dfy`): the simulator object as a class whose methods
  update `x`, `y`, `heading` and `obstacles` in place. Each method is proved
  against the pure definitions above.

Headings are in degrees, counter-clockwise positive. With the right wheel
forward, the spin (`right == 1`) decreases the heading while the pivot about
the stopped left wheel increases it, although the comments call both
clockwise. The model follows the code: a unit spin turns by 0.98 degrees
times the left power, and a pivot by 0.49 degrees times the moving wheel's
power.

## Model

| member | source | states |
|---|---|---|
| Numerics.RoundNearest | simulator.py:150 | `round` gives an integer within 0.5 of its argument, and the even one on a tie |
| Numerics.RoundUnique | simulator.py:150 | those two properties single out `round`'s result |
| Numerics.RoundNegates | simulator.py:150 | rounding is symmetric about zero: round(-x) == -round(x) |
| Numerics.RoundIntegral | simulator.py:150 | rounding a whole number gives it back |
| Numerics.PyMod | simulator.py:464 | Python's `x % m` for m > 0 lies in [0, m) and differs from x by a whole multiple of m |
| Numerics.PyModUnique | simulator.py:464 | any remainder in [0, m) that differs from x by a multiple of m is Python's |
| Numerics.PyModAddReduced | simulator.py:464 | reducing the heading before adding a turn does not change the reduced result |
| Numerics.PyModOfReduced | simulator.py:464 | a heading already in [0, 360) is left unchanged by `% 360` |
| Numerics.HalfTurnNegates | simulator.py:16-20 | exposes the assumed half-turn law of the degree `sin` and `cos` helpers (part of `Lawful`) as a lemma the geometry calls |
| Numerics.FullTurn | simulator.py:16-20 | a full turn leaves the degree sine and cosine unchanged |
| Geometry.Point.Minus | simulator.py:133-137 | point subtraction undoes point addition |
| Geometry.DistanceSymmetric | simulator.py:128-131 | the distance between two points is the same measured from either end |
| Geometry.ToPointNear | simulator.py:147-150 | `to_point` gives whole millimetres, each within half a millimetre of r·cos θ and r·sin θ |
| Geometry.FromPointsLength | simulator.py:152-158 | `from_points` gives a length equal to the distance between the two points, never negative, and zero exactly when they coincide |
| Geometry.FromPointsRoundTrip | simulator.py:152-158 | converting the vector from p1 to p2 back to Cartesian form gives p2 - p1 exactly, and `to_point` gives it exactly when the offset is whole millimetres |
| Geometry.ToPointOpposite | simulator.py:147-150 | directions with opposite sine and cosine give exactly opposite rounded offsets |
| Geometry.ToPointHalfTurn | simulator.py:147-150 | turning a vector by 180 degrees negates its rounded offset exactly |
| Geometry.ToPointFullTurn | simulator.py:147-150 | turning a vector by 360 degrees leaves its rounded offset unchanged |
| Geometry.CornerAtWhole | simulator.py:179 | a corner lies a whole number of millimetres from the centre on each axis |
| Geometry.BoxCornersWhole | simulator.py:170-183 | all four corners lie a whole number of millimetres from the centre on each axis |
| Geometry.FrontEdge | simulator.py:185-188 | the front edge is (front_right, front_left) of the box's corners |
| Geometry.CornersPointSymmetric | simulator.py:175-183 | front-right/back-left and front-left/back-right are point-symmetric about the centre |
| Geometry.CornersFullTurn | simulator.py:170-183 | a box turned by a full turn has the same four corners |
| Geometry.CornersAroundFullTurn | simulator.py:175-183 | each of the four corner angles, turned by 360 degrees, gives the same corner |
| Geometry.CornerAtFullTurn | simulator.py:179 | a corner direction turned by 360 degrees gives the same corner |
| Geometry.Obstacle.ContainsPoint | simulator.py:204-211 | containment is the open axis-aligned rectangle of the obstacle's size around its centre |
| Geometry.ContainsPointIgnoresHeading | simulator.py:204-211 | containment does not depend on the obstacle's heading |
| Geometry.ContainsCenter | simulator.py:204-211 | an obstacle contains its own centre exactly when both sides are positive |
| Kinematics.Step | simulator.py:453-496 | the update fails, with the invalid-command error, exactly for pairs that are not equal, not opposite, and not one stopped wheel with the other at ±1; it keeps the heading in [0, 360); equal powers keep the heading; opposite powers keep x and y |
| Kinematics.StopChangesNothing | simulator.py:455-456 | (STOP, STOP) leaves the pose unchanged |
| Kinematics.StraightThenBack | simulator.py:455-460 | a straight frame followed by one at the opposite power returns exactly to the starting pose |
| Kinematics.SpinThenBack | simulator.py:461-467 | a unit spin followed by the opposite unit spin returns to the starting heading |
| Kinematics.SpinDirection | simulator.py:461-467 | a unit spin turns by left·0.98 degrees; any opposite pair with right ≠ 1, such as (-2, 2), turns counter-clockwise |
| Kinematics.PivotFollowsMovingWheel | simulator.py:469-489 | whichever wheel is stopped, the heading turns by half the spin rate with the sign of the moving wheel's power, and the robot advances 0.208·power along the new heading |
| Kinematics.RepeatIsProduct | simulator.py:437-438 | n equal per-frame displacements add up to n times the displacement |
| Kinematics.IterateStraight | simulator.py:455-460 | n straight frames keep the heading and move n times the per-frame displacement |
| Kinematics.IterateSpin | simulator.py:461-467 | n unit-spin frames keep x and y and turn the heading by n·0.98·left, reduced to [0, 360) |
| Kinematics.IteratePivotHeading | simulator.py:469-489 | n pivot frames about a stopped wheel always succeed and turn the heading by n·0.49·(left + right), reduced to [0, 360) |
| Kinematics.BoxBoundaries | simulator.py:337-341 | the crash limits are symmetric about the origin, max - min equal to the arena width and height |
| Kinematics.OutOfBounds | simulator.py:427-429 | a point is out exactly when it is not in the closed rectangle of the limits, so a point on a wall is not out |
| Kinematics.RoundBounded | simulator.py:150 | rounding a value within [-k, k] stays within [-k, k] |
| Kinematics.CornerNearCenter | simulator.py:179 | a corner less than 150 mm from the origin lies within 150 mm on each axis |
| Kinematics.HomeIsCrashFree | simulator.py:442-444 | the origin pose the debug reset restores does not crash |
| Kinematics.RunFrames | simulator.py:433-451 | the loop keeps the heading in [0, 360); in debug mode it completes exactly when there are no frames or the pair is accepted; its only errors are the invalid command and, in strict mode only, the collision |
| Kinematics.RejectedCommand | simulator.py:437-438 | a rejected pair raises on the first frame with the pose unchanged, and does nothing when there are no frames |
| Kinematics.CrashFreeExtend | simulator.py:437-439 | a crash-free frame in front of k crash-free frames gives k + 1 crash-free frames |
| Kinematics.StrictCompletedRun | simulator.py:437-449 | in strict mode a completed command ran all n updates, none of them crashed, and it ended where n plain updates end |
| Kinematics.StrictCollisionRun | simulator.py:437-449 | in strict mode a collision is raised at the first crashing frame k ≤ n, in the pose of frame k; earlier frames did not crash and later frames never ran |
| Kinematics.CompletedRunPassesTest | simulator.py:437-449 | in either mode a completed command of at least one frame ends in a pose that passes the crash test |
| Kinematics.CompletedRunEndsInside | simulator.py:420-449 | with the simulator's own crash test, a completed command of at least one frame leaves every corner inside the arena |
| Kinematics.FrameCountNearest | simulator.py:435 | the frame count is the nearest whole number to seconds·60, the even one on a tie, and zero when that is below one half |
| Sensing.WallDistance | simulator.py:498-527 | at headings 0, 90, 180 and 270 the distance is exactly E, N, W and S; from a point in the arena it is non-negative |
| Sensing.AxisLimit | simulator.py:516-525 | the per-axis candidate is non-negative when the room on both sides is |
| Sensing.CardinalTrig | simulator.py:506-525 | under the trigonometric laws, sine and cosine take their exact values at the four cardinal headings and are nonzero elsewhere in [0, 360), so the divisions are defined |
| Sensing.DistToBox | simulator.py:498-527 | for a heading in [0, 360), the distance from a point in the arena is non-negative |
| Sensing.AxisWithin | simulator.py:516-525 | travelling no farther than an axis candidate stays between the two walls of that axis, and travelling exactly that far reaches the wall ahead |
| Sensing.WithinLimit | simulator.py:516-525 | travelling at most ahead/u at rate u > 0 covers at most `ahead`, and exactly `ahead` at the limit |
| Sensing.WallDistanceIsNearestLimit | simulator.py:516-527 | away from the cardinal headings the distance is at most each candidate and equal to one of them |
| Sensing.DistToBoxReachesWall | simulator.py:498-527 | from a point in the arena, travelling the distance along the heading ends on one of the four walls without leaving the arena |
| Sensing.SonarOffsetsOpposite | simulator.py:550-563 | the two sonars are moved in from their corners by exactly opposite offsets, each within half a millimetre of 30 mm along the front edge |
| Sensing.ReadingReachesWall | simulator.py:529-539 | a reading from a sonar in the arena is non-negative, and ten times it reaches a wall along the heading |
| Navigation.InverseOf | main.py:36-42 | the result is FORWARD, BACKWARD or STOP; FORWARD and BACKWARD swap, STOP stays, anything else becomes STOP |
| Navigation.InverseInvolution | main.py:36-42 | on FORWARD, BACKWARD and STOP, `inverseOf` is an involution |
| Navigation.Sign | main.py:50-56 | the result is 1 or -1; it is 1 exactly when num ≥ 0, zero included; sign times absolute value gives num back |
| Navigation.Pads | main.py:29-31 | the number of half-second pads is the least k with seconds + k/2 ≥ 0.5 |
| Navigation.PadsUnique | main.py:29-31 | the two conditions on the pad count single out one count |
| Navigation.PadsStep | main.py:29-30 | each recursive call on seconds + 0.5 uses up exactly one pad, so the recursion terminates |
| Navigation.MotorsAndWaitShape | main.py:24-35 | the expansion is Pads + 1 commands: first the request lengthened by half a second per pad, then one inverse half-second per pad, every command at least half a second long; a request of at least half a second is issued as it is |
| Navigation.NetOfPadded | main.py:30-31 | padding by half a second and undoing it with the inverse direction nets to the requested duration |
| Navigation.MotorsAndWaitNet | main.py:24-35 | for directions in {FORWARD, BACKWARD, STOP}, each wheel runs net exactly the requested duration at the requested power |
| Navigation.SpinCommands | main.py:24-35 | a spin request expands into a nonempty list of unit spins |
| Navigation.SpinFor | main.py:24-35 | a spin request turns net 58.8 degrees per second of its duration, counter-clockwise for the left wheel forward |
| Navigation.SpinBy | main.py:9-10 | spinning for degrees/58.8 seconds turns by the given degrees, signed by the left wheel |
| Navigation.RotateToTurn | main.py:6-10 | `rotateTo` issues unit spins, the first (FORWARD, BACKWARD), whose net turn is abs(angle) degrees |
| Navigation.HalfModFromFull | main.py:19-20 | when angle % 360 > 180, angle % 180 is angle % 360 - 180 |
| Navigation.ClockwiseBranch | main.py:19-22 | the third branch spins clockwise by the rest of the turn, angle % 360 - 360 in (-180, 0), and ends facing where the angle points |
| Navigation.AdvancedRotateToTurn | main.py:11-23 | for angles in [0, 360): no command exactly for 0, otherwise unit spins turning by at most half a turn either way and ending facing the angle |
| Navigation.AdvancedRotateToNegativeAngle | main.py:15-18 | as written, -200 degrees (160 reduced) takes the second branch and spins 200 degrees, which does not face 160 |
| Navigation.ShortestRotateToTurn | main.py:11-23 | with the second branch timed from the reduced angle, every angle is reached by at most half a turn, with no command exactly for multiples of 360 |
| Navigation.ShortestAgreesOnOneTurn | main.py:11-23 | the corrected routine and the script's routine issue the same commands for every angle in [0, 360) |
| Navigation.Classify | main.py:107-126 | `toAdd` is 0, 90, 180 or 270; both components become non-negative; `inverse` holds exactly when the signs differ, and the components are swapped exactly then; the final raise is unreachable |
| Navigation.ClassifyReconstructs | main.py:107-126 | rotating the classified components back by `toAdd` gives the original vector |
| Driver.Placed | simulator.py:295-308 | placing k rows gives min(k, 3) obstacles, the table rows in order; it completes exactly when k ≤ 3 and otherwise raises the index error |
| Driver.ObstacleCount | simulator.py:298 | the loop bound is min(n, 5), and no iterations when that is not positive |
| Driver.GeneratedObstacles | simulator.py:295-308 | a request of n places min(n, 3) obstacles, none when n ≤ 0; a request above 3 raises |
| Driver.PlacedPastTable | simulator.py:298-299 | past the end of the table further rows add nothing and placement has raised |
| Driver.TableBoundedPlacement | simulator.py:298-306 | with the loop bounded by the table, every request completes and places the first min(n, 3) rows in order |
| Driver.SimulatorDriver.constructor | simulator.py:215-252 | a new driver is at the origin facing along +x, with the arena's crash limits and no obstacles yet |
| Driver.SimulatorDriver.CalculateBoxBoundaries | simulator.py:337-341 | the crash limits become the arena's walls, max - min equal to the arena width and height |
| Driver.SimulatorDriver.GetRobotBox | simulator.py:291-293 | the chassis box is 200 mm square, centred on the robot and turned to its heading |
| Driver.SimulatorDriver.GenerateObstacles | simulator.py:295-308 | the obstacle list grows by exactly the placed table rows, in order, and the outcome is that of placement |
| Driver.SimulatorDriver.DetectCrash | simulator.py:420-431 | the result is true exactly when some corner of the chassis lies strictly beyond a crash limit |
| Driver.SimulatorDriver.UpdatePosition | simulator.py:453-496 | the new pose is the one the update rule gives; for a rejected pair the pose is unchanged and the frame raises; the heading stays in [0, 360) |
| Driver.SimulatorDriver.RunFrame | simulator.py:438-449 | one frame: the update, then the crash test, with the debug reset to the origin or the strict collision |
| Driver.SimulatorDriver.RunForFrames | simulator.py:437-451 | the frame loop leaves the pose and outcome of the pure frame loop, stopping at the first frame that raises |
| Driver.SimulatorDriver.Motors | simulator.py:433-451 | `motors` runs round(seconds·60) frames with the pose and outcome of the pure frame loop |
| Driver.SimulatorDriver.GetSonarPositions | simulator.py:550-563 | the sonar positions of the current pose, moved in from the front corners by opposite offsets |
| Driver.SimulatorDriver.LeftSonar | simulator.py:529-533 | ten times the reading is the wall distance from the left mount; from a mount in the arena it is non-negative and reaches a wall |
| Driver.SimulatorDriver.RightSonar | simulator.py:535-539 | ten times the reading is the wall distance from the right mount; from a mount in the arena it is non-negative and reaches a wall |
| Driver.SimulatorDriver.Sonars | simulator.py:541-548 | both readings equal (left_sonar, right_sonar) and read the pose without changing it |
| Driver.NewSimulatorDriver | simulator.py:215-289 | a new simulator starts at the origin with the arena's limits; a positive request places the table rows, and a request of 4 or 5 raises after placing all 3 |

## Left out

- Rendering is left out: pygame, the window, images, the per-frame `render()` call (a no-op here), `_draw_*`, `_load_images` and `start_simulation`. These have no effect on the pose.
- `print`, `input`, `time.sleep`, the interactive loops of both files, and the part of the navigation loop after the quadrant classification (the arctangent and the drive) are I/O or depend on user input.
- `RealRobotDriver` and the `Robot` wrapper's hardware branch are not part of this model. `testing.py` is not part of this model either: it only sleeps and calls the wrapper.
- The trigonometry is not computed. numpy's sine, cosine, square root and arctangent are a parameter `Trig`, constrained only by the laws in `Numerics.Lawful`, `ZeroLaw`, `SqrtLaw` and `Geometry.AtanLaw`. Values that depend on real trigonometry, and floating-point effects such as sin(180°) not being exactly 0, are not modelled.
- Floating-point rounding is not modelled: all quantities are exact reals. `round` and `%` follow Python's definitions exactly.
- `Point.to_vector`, `to_array`, `to_screen` and `mm_to_px` have no part in the core. `randomize_obstacles` is stored but never used. `wall_thickness` and `padding` only affect drawing.
- The `None` defaults of the constructor's arguments are left out: the request is an `int` parameter.
- Rotated-obstacle collision is left out: the simulator does not check obstacles at all, and `contains_point` ignores the heading.
- Driver.NewSimulatorDriver: the initialiser's obstacle placement is a separate factory method, because a Dafny constructor cannot return the raised outcome.
- Driver.SimulatorDriver.constructor: obstacles are not yet placed when it returns; the factory places them.
- Driver.SimulatorDriver.Motors: the global `debug` flag is a constructor parameter of the driver (`debugMode`).
- Sensing.DistToBox: requires a heading in [0, 360) and the trigonometric laws. The simulator only ever holds headings in that range, and the laws make the divisions defined.
- Navigation.SpinFor: the turn is stated at the nominal 58.8 degrees per second. The simulator runs each command for a rounded whole number of frames, so the actual turn can differ by up to half a frame per command.
- Navigation.MotorsAndWaitNet: stated for directions in {FORWARD, BACKWARD, STOP}, the only values the script passes. Other powers are inverted to STOP, so their net run differs.

## Findings

| source | as written | input that shows it | evidently intended | confidence | as-written member | corrected member |
|---|---|---|---|---|---|---|
| main.py:15-18 | the second branch of `AdvancedRotateTo` times the spin from the raw `angle` although the branch was chosen on `angle % 360` | angle = -200: -200 % 360 = 160 ≤ 180, so it spins counter-clockwise for 200/58.8 s, turning 200 degrees instead of 160 | time the spin from `angle % 360`, as the third branch does, so every angle is reached by at most half a turn | medium; latent, since the script only passes angles in [0, 360]; not executed | Navigation.AdvancedRotateToNegativeAngle | Navigation.ShortestRotateToTurn |
| simulator.py:298-299 | the obstacle loop runs min(n, 5) times over a table of 3 rows | n_obstacles = 4: the fourth iteration indexes `obstacle_specs[3]` and raises IndexError after three obstacles are placed | bound the loop by the table, min(n, len(obstacle_specs)) | medium; the "Max 5" comment suggests more rows were planned; not executed | Driver.GeneratedObstacles | Driver.TableBoundedPlacement |
