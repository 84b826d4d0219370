/**
  The decision helpers of the navigation script that drives the robot: wheel
  direction inversion, the sign test, the motor commands a timed move or a
  rotation issues, and the quadrant classification of a target vector. A
  command sequence stands for the successive `robot.motors` calls the script
  makes; durations are in seconds and turns in degrees, counter-clockwise
  positive.
 */
module Navigation {
  import opened Numerics
  import opened Kinematics

  /** One `robot.motors(left, right, seconds)` call. */
  datatype Command = Motors(left: int, right: int, seconds: real)

  /** A spin at power 1 turns 0.98 degrees per frame at 60 frames per second. */
  const DegreesPerSecond: real := DegreesPerFrame * Fps as real

  /** The opposite wheel direction: forward and backward swap, and anything
      else, stop included, becomes stop. */
  function InverseOf(direction: int): (r: int)
    ensures r == Forward || r == Backward || r == Stop
    ensures direction == Forward || direction == Backward || direction == Stop ==> r == -direction
    ensures direction != Forward && direction != Backward ==> r == Stop
  {
    if direction == Forward then Backward
    else if direction == Backward then Forward
    else Stop
  }

  /** Inverting twice gives the direction back on the three motor values. */
  lemma InverseInvolution(direction: int)
    requires direction == Forward || direction == Backward || direction == Stop
    ensures InverseOf(InverseOf(direction)) == direction
  {
    assert InverseOf(direction) == -direction;
  }

  /** 1 for a non-negative number, zero included, and -1 otherwise. */
  function Sign(num: real): (r: int)
    ensures r == 1 || r == -1
    ensures r == 1 <==> num >= 0.0
    ensures r as real * Abs(num) == num
  {
    if num >= 0.0 then 1 else -1
  }

  /** The number of half-second pads the script adds to a duration that is
      too short: the least k for which `seconds + k/2` reaches half a
      second. */
  function Pads(seconds: real): (k: nat)
    ensures seconds + 0.5 * k as real >= 0.5
    ensures k > 0 ==> seconds + 0.5 * (k - 1) as real < 0.5
  {
    if seconds >= 0.5 then 0
    else
      var f := ((seconds - 0.5) * 2.0).Floor;
      -f
  }

  /** The two conditions of Pads single out one count. */
  lemma PadsUnique(seconds: real, k: nat)
    requires seconds + 0.5 * k as real >= 0.5
    requires k > 0 ==> seconds + 0.5 * (k - 1) as real < 0.5
    ensures k == Pads(seconds)
  {
    var p := Pads(seconds);
    assert k < p ==> seconds + 0.5 * k as real <= seconds + 0.5 * (p - 1) as real;
    assert p < k ==> seconds + 0.5 * p as real <= seconds + 0.5 * (k - 1) as real;
  }

  /** Each level of the recursion uses up one pad. */
  lemma PadsStep(seconds: real)
    requires seconds < 0.5
    ensures Pads(seconds) >= 1 && Pads(seconds + 0.5) == Pads(seconds) - 1
  {
    var k := Pads(seconds);
    assert seconds + 0.5 + 0.5 * (k - 1) as real == seconds + 0.5 * k as real;
    PadsUnique(seconds + 0.5, k - 1);
  }

  /** The commands of a timed move. A duration of half a second or more is
      issued as it is; a shorter one is lengthened by half a second and then
      undone by half a second of the inverse directions, recursively. */
  function MotorsAndWait(left: int, right: int, seconds: real): seq<Command>
    decreases Pads(seconds)
  {
    if seconds < 0.5 then
      PadsStep(seconds);
      MotorsAndWait(left, right, seconds + 0.5) + [Motors(InverseOf(left), InverseOf(right), 0.5)]
    else
      [Motors(left, right, seconds)]
  }

  /** The commands of a timed move are the move lengthened by one half
      second per pad, followed by one inverse half-second per pad; none is
      shorter than half a second. */
  lemma {:induction false} MotorsAndWaitShape(left: int, right: int, seconds: real)
    ensures var cmds := MotorsAndWait(left, right, seconds);
      && |cmds| == Pads(seconds) + 1
      && cmds[0] == Motors(left, right, seconds + 0.5 * Pads(seconds) as real)
      && (forall i :: 1 <= i < |cmds| ==> cmds[i] == Motors(InverseOf(left), InverseOf(right), 0.5))
      && (forall i :: 0 <= i < |cmds| ==> cmds[i].seconds >= 0.5)
    decreases Pads(seconds)
  {
    if seconds < 0.5 {
      PadsStep(seconds);
      MotorsAndWaitShape(left, right, seconds + 0.5);
      assert seconds + 0.5 + 0.5 * Pads(seconds + 0.5) as real == seconds + 0.5 * Pads(seconds) as real;
    }
  }

  datatype Wheel = LeftWheel | RightWheel

  /** The power a command gives one wheel. */
  function PowerOf(c: Command, w: Wheel): int {
    if w == LeftWheel then c.left else c.right
  }

  /** Seconds run at `power`, counted negative when running backward. */
  function Signed(power: int, seconds: real): real {
    power as real * seconds
  }

  /** Seconds one wheel runs forward minus seconds it runs backward. */
  function NetSeconds(cmds: seq<Command>, w: Wheel): real
    decreases |cmds|
  {
    if |cmds| == 0 then 0.0
    else
      var last := cmds[|cmds| - 1];
      NetSeconds(cmds[..|cmds| - 1], w) + Signed(PowerOf(last, w), last.seconds)
  }

  /** Appending one command adds its signed duration. */
  lemma NetAppend(front: seq<Command>, c: Command, w: Wheel)
    ensures NetSeconds(front + [c], w) == NetSeconds(front, w) + Signed(PowerOf(c, w), c.seconds)
  {
    var cmds := front + [c];
    assert cmds[..|cmds| - 1] == front;
  }

  /** On the three motor values, the padding cancels: each wheel runs for
      the requested duration in its requested direction, net. */
  lemma {:induction false} MotorsAndWaitNet(left: int, right: int, seconds: real, w: Wheel)
    requires left == Forward || left == Backward || left == Stop
    requires right == Forward || right == Backward || right == Stop
    ensures NetSeconds(MotorsAndWait(left, right, seconds), w) == Signed(PowerOf(Motors(left, right, seconds), w), seconds)
    decreases Pads(seconds)
  {
    var power := PowerOf(Motors(left, right, seconds), w);
    if seconds < 0.5 {
      PadsStep(seconds);
      var front := MotorsAndWait(left, right, seconds + 0.5);
      var pad := Motors(InverseOf(left), InverseOf(right), 0.5);
      MotorsAndWaitUnfold(left, right, seconds);
      NetAppend(front, pad, w);
      MotorsAndWaitNet(left, right, seconds + 0.5, w);
      assert PowerOf(Motors(left, right, seconds + 0.5), w) == power;
      assert PowerOf(pad, w) == InverseOf(power);
      NetOfPadded(power, seconds);
    } else {
      NetSingle(Motors(left, right, seconds), w);
    }
  }

  lemma NetSingle(c: Command, w: Wheel)
    ensures NetSeconds([c], w) == Signed(PowerOf(c, w), c.seconds)
  {
    assert [c][..0] == [];
  }

  lemma MotorsAndWaitUnfold(left: int, right: int, seconds: real)
    requires seconds < 0.5
    ensures MotorsAndWait(left, right, seconds) ==
      MotorsAndWait(left, right, seconds + 0.5) + [Motors(InverseOf(left), InverseOf(right), 0.5)]
  {
  }

  /** Half a second more one way and half a second back leave the signed
      duration of the request. */
  lemma NetOfPadded(power: int, seconds: real)
    requires power == Forward || power == Backward || power == Stop
    ensures Signed(power, seconds + 0.5) + Signed(InverseOf(power), 0.5) == Signed(power, seconds)
  {
  }

  /** A spin at unit power: one wheel forward, the other backward. */
  predicate UnitSpin(c: Command) {
    (c.left == Forward && c.right == Backward) || (c.left == Backward && c.right == Forward)
  }

  /** Every command is a unit spin. */
  predicate Spins(cmds: seq<Command>) {
    forall i :: 0 <= i < |cmds| ==> UnitSpin(cmds[i])
  }

  /** The turn a sequence of spins makes, in degrees counter-clockwise, at
      the nominal rate; the simulator rounds each command to whole frames. */
  function SpinDegrees(cmds: seq<Command>): real {
    DegreesPerSecond * NetSeconds(cmds, LeftWheel)
  }

  /** A timed spin issues only unit spins. */
  lemma SpinCommands(left: int, seconds: real)
    requires left == Forward || left == Backward
    ensures |MotorsAndWait(left, -left, seconds)| >= 1
    ensures Spins(MotorsAndWait(left, -left, seconds))
  {
    var cmds := MotorsAndWait(left, -left, seconds);
    MotorsAndWaitShape(left, -left, seconds);
    var pad := Motors(InverseOf(left), InverseOf(-left), 0.5);
    assert UnitSpin(cmds[0]) && UnitSpin(pad);
    forall i | 0 <= i < |cmds|
      ensures UnitSpin(cmds[i])
    {
      if i > 0 {
        assert cmds[i] == pad;
      }
    }
  }

  /** A timed spin is made of unit spins and turns by the nominal rate times
      its duration, counter-clockwise for the left wheel forward. */
  lemma SpinFor(left: int, seconds: real)
    requires left == Forward || left == Backward
    ensures |MotorsAndWait(left, -left, seconds)| >= 1
    ensures Spins(MotorsAndWait(left, -left, seconds))
    ensures SpinDegrees(MotorsAndWait(left, -left, seconds)) == DegreesPerSecond * Signed(left, seconds)
  {
    SpinCommands(left, seconds);
    MotorsAndWaitNet(left, -left, seconds, LeftWheel);
  }

  /** A spin timed for `degrees` at the nominal rate turns by that many
      degrees, counter-clockwise with the left wheel forward and clockwise
      with it backward. */
  lemma SpinBy(left: int, degrees: real)
    requires left == Forward || left == Backward
    ensures var cmds := MotorsAndWait(left, -left, degrees / DegreesPerSecond);
      |cmds| >= 1 && Spins(cmds) && SpinDegrees(cmds) == left as real * degrees
  {
    SpinFor(left, degrees / DegreesPerSecond);
  }

  /** The simple rotation: always a counter-clockwise spin for |angle|
      degrees at the nominal rate. */
  function RotateTo(angle: real): seq<Command> {
    var angleInSeconds := angle / DegreesPerSecond;
    MotorsAndWait(Forward, Backward, Abs(angleInSeconds))
  }

  /** RotateTo turns counter-clockwise by the magnitude of the angle. */
  lemma RotateToTurn(angle: real)
    ensures Spins(RotateTo(angle))
    ensures RotateTo(angle)[0].left == Forward
    ensures SpinDegrees(RotateTo(angle)) == Abs(angle)
  {
    assert Abs(angle / DegreesPerSecond) == Abs(angle) / DegreesPerSecond;
    SpinBy(Forward, Abs(angle));
  }

  /** The rotation that picks a direction, as the script writes it: no
      command for a whole number of turns, a counter-clockwise spin when the
      reduced angle is at most 180 degrees, and otherwise a clockwise spin
      for the rest of the turn. The counter-clockwise branch times the spin
      from the angle as given rather than the reduced one. */
  function AdvancedRotateTo(angle: real): seq<Command> {
    if PyMod(angle, 360.0) == 0.0 then []
    else if PyMod(angle, 360.0) <= 180.0 then
      var angleInSeconds := angle / DegreesPerSecond;
      MotorsAndWait(Forward, Backward, Abs(angleInSeconds))
    else
      var angleInSeconds := (180.0 - PyMod(angle, 180.0)) / DegreesPerSecond;
      MotorsAndWait(Backward, Forward, Abs(angleInSeconds))
  }

  /** Beyond half a turn, the remainder modulo 180 is the remainder modulo
      360 less 180. */
  lemma HalfModFromFull(angle: real)
    requires PyMod(angle, 360.0) > 180.0
    ensures PyMod(angle, 180.0) == PyMod(angle, 360.0) - 180.0
  {
    var p := PyMod(angle, 360.0);
    var j := PyModMultiple(angle, 360.0);
    PyModUnique(angle, 180.0, p - 180.0, 2 * j + 1);
  }

  /** The clockwise branch, shared by both rotations, spins clockwise by the
      rest of the turn: its turn is the reduced angle less 360 degrees, in
      (-180, 0), and it faces where the angle points. */
  lemma ClockwiseBranch(angle: real)
    requires PyMod(angle, 360.0) > 180.0
    ensures var cmds := MotorsAndWait(Backward, Forward, Abs((180.0 - PyMod(angle, 180.0)) / DegreesPerSecond));
      && |cmds| >= 1 && Spins(cmds)
      && SpinDegrees(cmds) == PyMod(angle, 360.0) - 360.0
      && PyMod(SpinDegrees(cmds), 360.0) == PyMod(angle, 360.0)
  {
    var p := PyMod(angle, 360.0);
    HalfModFromFull(angle);
    assert Abs((180.0 - PyMod(angle, 180.0)) / DegreesPerSecond) == (360.0 - p) / DegreesPerSecond;
    SpinBy(Backward, 360.0 - p);
    PyModUnique(p - 360.0, 360.0, p, -1);
  }

  /** For any angle in [0, 360) the rotation is made of unit spins, turns
      the shorter way, by at most half a turn, and ends facing the same way
      as turning by the angle itself. */
  lemma AdvancedRotateToTurn(angle: real)
    requires 0.0 <= angle < 360.0
    ensures angle == 0.0 <==> AdvancedRotateTo(angle) == []
    ensures Spins(AdvancedRotateTo(angle))
    ensures -180.0 < SpinDegrees(AdvancedRotateTo(angle)) <= 180.0
    ensures PyMod(SpinDegrees(AdvancedRotateTo(angle)), 360.0) == angle
  {
    PyModOfReduced(angle, 360.0);
    if angle == 0.0 {
      PyModOfReduced(0.0, 360.0);
    } else if angle <= 180.0 {
      assert Abs(angle / DegreesPerSecond) == angle / DegreesPerSecond;
      SpinBy(Forward, angle);
    } else {
      ClockwiseBranch(angle);
    }
  }

  /** For a negative angle whose reduced value is at most half a turn, the
      script's rotation points the wrong way: -200 degrees is 160 degrees
      reduced, but the spin turns 200 degrees. */
  lemma AdvancedRotateToNegativeAngle()
    ensures PyMod(-200.0, 360.0) == 160.0
    ensures SpinDegrees(AdvancedRotateTo(-200.0)) == 200.0
    ensures PyMod(SpinDegrees(AdvancedRotateTo(-200.0)), 360.0) != PyMod(-200.0, 360.0)
  {
    PyModUnique(-200.0, 360.0, 160.0, -1);
    assert Abs(-200.0 / DegreesPerSecond) == 200.0 / DegreesPerSecond;
    SpinBy(Forward, 200.0);
    PyModOfReduced(200.0, 360.0);
  }

  /** The rotation with the counter-clockwise branch timed from the reduced
      angle, as the other two branches already are. */
  function ShortestRotateTo(angle: real): seq<Command> {
    var reduced := PyMod(angle, 360.0);
    if reduced == 0.0 then []
    else if reduced <= 180.0 then
      MotorsAndWait(Forward, Backward, reduced / DegreesPerSecond)
    else
      var angleInSeconds := (180.0 - PyMod(angle, 180.0)) / DegreesPerSecond;
      MotorsAndWait(Backward, Forward, Abs(angleInSeconds))
  }

  /** For every angle, the corrected rotation turns the shorter way by at
      most half a turn and ends facing as turning by the angle would. */
  lemma ShortestRotateToTurn(angle: real)
    ensures PyMod(angle, 360.0) == 0.0 <==> ShortestRotateTo(angle) == []
    ensures Spins(ShortestRotateTo(angle))
    ensures -180.0 < SpinDegrees(ShortestRotateTo(angle)) <= 180.0
    ensures PyMod(SpinDegrees(ShortestRotateTo(angle)), 360.0) == PyMod(angle, 360.0)
  {
    var reduced := PyMod(angle, 360.0);
    if reduced == 0.0 {
      PyModOfReduced(0.0, 360.0);
    } else if reduced <= 180.0 {
      SpinBy(Forward, reduced);
      PyModOfReduced(reduced, 360.0);
    } else {
      ClockwiseBranch(angle);
    }
  }

  /** On the angles the script passes, [0, 360), the correction changes
      nothing. */
  lemma ShortestAgreesOnOneTurn(angle: real)
    requires 0.0 <= angle < 360.0
    ensures ShortestRotateTo(angle) == AdvancedRotateTo(angle)
  {
    PyModOfReduced(angle, 360.0);
    assert angle / DegreesPerSecond >= 0.0;
  }

  /** The quadrant of a target vector: the multiple of 90 degrees to add,
      whether the components were swapped, and the non-negative components
      in the rotated frame. */
  datatype Quadrant = Quadrant(toAdd: int, inverse: bool, a: real, b: real)

  /** The script's classification of a target vector (v0, v1) by the signs
      of its components, zero counting as positive. */
  function Classify(v0: real, v1: real): (q: Quadrant)
    ensures q.toAdd == 0 || q.toAdd == 90 || q.toAdd == 180 || q.toAdd == 270
    ensures q.a >= 0.0 && q.b >= 0.0
    ensures q.inverse <==> (v0 >= 0.0) != (v1 >= 0.0)
    ensures q.inverse ==> q.a == Abs(v1) && q.b == Abs(v0)
    ensures !q.inverse ==> q.a == Abs(v0) && q.b == Abs(v1)
  {
    var signX := Sign(v0) == 1;
    var signY := Sign(v1) == 1;
    if signX && signY then Quadrant(0, false, Abs(v0), Abs(v1))
    else if !signX && !signY then Quadrant(180, false, Abs(v0), Abs(v1))
    else if !signX && signY then Quadrant(90, true, Abs(v1), Abs(v0))
    else if signX && !signY then Quadrant(270, true, Abs(v1), Abs(v0))
    else assert false; Quadrant(0, false, 0.0, 0.0)
  }

  /** (x, y) turned counter-clockwise by a multiple of 90 degrees. */
  function QuarterTurns(degrees: int, x: real, y: real): (real, real) {
    if degrees == 90 then (-y, x)
    else if degrees == 180 then (-x, -y)
    else if degrees == 270 then (y, -x)
    else (x, y)
  }

  /** Turning the classified components back by `toAdd` gives the original
      vector, so `toAdd` plus the direction of (a, b) is the direction of the
      target. */
  lemma ClassifyReconstructs(v0: real, v1: real)
    ensures var q := Classify(v0, v1); QuarterTurns(q.toAdd, q.a, q.b) == (v0, v1)
  {
  }
}
