/** The motor command mapping of `src/control/input_controller.cpp`. Each
    command writes four direction pins of the two H-bridges and the PWM
    duties of the motor channels; the GPIO and LEDC calls become an output
    record. `setSpeed` drives the LED channel, the firmware's test stand-in
    for speed. */
module InputController {
  import opened ArduinoMath

  /** The pin levels (true is HIGH) and 8-bit PWM duties last written. */
  datatype Outputs = Outputs(
    leftFwd: bool,
    leftRev: bool,
    rightFwd: bool,
    rightRev: bool,
    leftDuty: int,
    rightDuty: int,
    ledDuty: int)

  /** `currentSpeed` (0-100) and the outputs. */
  datatype Controller = Controller(currentSpeed: int, out: Outputs)

  /** Everything low and idle, as after `initController`. */
  const InitialController := Controller(0, Outputs(false, false, false, false, 0, 0, 0))

  const MaxSpeed: int := 100
  const MaxDuty: int := 255

  /** `map(speed, 0, 100, 0, 255)`: the 8-bit duty for a speed percentage. */
  function Duty(speed: int): (d: int)
    ensures 0 <= speed <= MaxSpeed ==> 0 <= d <= MaxDuty
  {
    var d := MapRange(speed, 0, MaxSpeed, 0, MaxDuty);
    assert 0 <= speed <= MaxSpeed ==> 0 <= d <= MaxDuty by {
      if 0 <= speed <= MaxSpeed {
        assert d * 100 <= speed * 255 < (d + 1) * 100;
      }
    }
    d
  }

  /** The duty scaling keeps a speed in range inside the 8-bit duty range,
      reaches both ends, never decreases with the speed, and is the integer
      part of speed * 255 / 100. */
  lemma DutyScaling(s: int, s': int)
    requires 0 <= s <= s' <= MaxSpeed
    ensures 0 <= Duty(s) <= Duty(s') <= MaxDuty
    ensures Duty(0) == 0 && Duty(MaxSpeed) == MaxDuty
    ensures Duty(s) * 100 <= s * 255 < (Duty(s) + 1) * 100
  {
    DutyBounds(s);
    DutyBounds(s');
  }

  /** The duty of a non-negative speed is speed * 255 / 100 rounded down. */
  lemma DutyIsScaled(s: int)
    requires 0 <= s
    ensures Duty(s) == (s * 255) / 100
  {
    DutyBounds(s);
  }

  lemma DutyBounds(s: int)
    requires 0 <= s
    ensures Duty(s) * 100 <= s * 255 < (Duty(s) + 1) * 100
  {
    assert (s - 0) * (MaxDuty - 0) == s * 255;
  }

  /** No bridge leg has both direction pins HIGH. Depending on the driver
      that is a short across the leg or a brake; either way it is not a
      direction. */
  predicate NoShootThrough(o: Outputs) {
    !(o.leftFwd && o.leftRev) && !(o.rightFwd && o.rightRev)
  }

  /** How a motor is driven by its two direction pins. */
  datatype Drive = Forward | Reverse | Coast | Shorted

  function DriveOf(fwd: bool, rev: bool): Drive {
    if fwd && rev then Shorted else if fwd then Forward else if rev then Reverse else Coast
  }

  function LeftDrive(o: Outputs): Drive { DriveOf(o.leftFwd, o.leftRev) }
  function RightDrive(o: Outputs): Drive { DriveOf(o.rightFwd, o.rightRev) }

  /** `setSpeed`: clamps the speed to 0-100 and writes its duty to the LED
      channel; the motors are untouched. */
  function SetSpeed(c: Controller, speed: int): (r: Controller)
    ensures 0 <= r.currentSpeed <= MaxSpeed
    ensures 0 <= speed <= MaxSpeed ==> r.currentSpeed == speed
    ensures speed < 0 ==> r.currentSpeed == 0
    ensures speed > MaxSpeed ==> r.currentSpeed == MaxSpeed
    ensures r.out == c.out.(ledDuty := Duty(r.currentSpeed))
  {
    var s := ConstrainInt(speed, 0, MaxSpeed);
    Controller(s, c.out.(ledDuty := Duty(s)))
  }

  /** The four direction pins of the two H-bridges. */
  datatype Pin = LeftFwdPin | LeftRevPin | RightFwdPin | RightRevPin

  /** One output call of a movement: a `digitalWrite` to a direction pin or
      an `ledcWrite` to a motor channel. */
  datatype Write = Level(pin: Pin, high: bool) | LeftPwm(duty: int) | RightPwm(duty: int)

  function Perform(o: Outputs, w: Write): Outputs {
    match w
    case Level(LeftFwdPin, h) => o.(leftFwd := h)
    case Level(LeftRevPin, h) => o.(leftRev := h)
    case Level(RightFwdPin, h) => o.(rightFwd := h)
    case Level(RightRevPin, h) => o.(rightRev := h)
    case LeftPwm(d) => o.(leftDuty := d)
    case RightPwm(d) => o.(rightDuty := d)
  }

  /** The outputs once all the calls are made, in order. */
  function PerformAll(o: Outputs, ws: seq<Write>): Outputs
    decreases |ws|
  {
    if |ws| == 0 then o else PerformAll(Perform(o, ws[0]), ws[1..])
  }

  /** Some state the pins pass through, after one of the calls, has a leg
      with both direction pins HIGH. */
  predicate BothHighOnTheWay(o: Outputs, ws: seq<Write>)
    decreases |ws|
  {
    |ws| > 0 && (!NoShootThrough(Perform(o, ws[0])) || BothHighOnTheWay(Perform(o, ws[0]), ws[1..]))
  }

  /** The five movements of the firmware. */
  datatype Movement = Forwards | Backwards | LeftTurn | RightTurn | Halt

  /** The direction levels a movement ends with, as (left forward, left
      reverse, right forward, right reverse). */
  function TargetLevels(m: Movement): (bool, bool, bool, bool) {
    match m
    case Forwards => (true, false, true, false)
    case Backwards => (false, true, false, true)
    case LeftTurn => (false, true, true, false)
    case RightTurn => (true, false, false, true)
    case Halt => (false, false, false, false)
  }

  /** The calls of a movement in the firmware's order: left FWD, left REV,
      right FWD, right REV, then the left and right duties. */
  function FirmwareWrites(m: Movement, pwm: int): seq<Write> {
    var (lf, lr, rf, rr) := TargetLevels(m);
    [Level(LeftFwdPin, lf), Level(LeftRevPin, lr), Level(RightFwdPin, rf), Level(RightRevPin, rr),
     LeftPwm(pwm), RightPwm(pwm)]
  }

  /** The two calls of one leg with the pin that goes LOW written first. */
  function LegBreakFirst(fwdPin: Pin, revPin: Pin, fwd: bool, rev: bool): (Write, Write) {
    if fwd then (Level(revPin, rev), Level(fwdPin, fwd)) else (Level(fwdPin, fwd), Level(revPin, rev))
  }

  /** The same calls, break before make: on each leg the pin that goes LOW
      is written before the pin that goes HIGH. */
  function BreakBeforeMakeWrites(m: Movement, pwm: int): seq<Write> {
    var (lf, lr, rf, rr) := TargetLevels(m);
    var left := LegBreakFirst(LeftFwdPin, LeftRevPin, lf, lr);
    var right := LegBreakFirst(RightFwdPin, RightRevPin, rf, rr);
    [left.0, left.1, right.0, right.1, LeftPwm(pwm), RightPwm(pwm)]
  }

  /** The state after each of six calls, unfolded. */
  lemma Unfold6(o: Outputs, ws: seq<Write>)
    requires |ws| == 6
    ensures var o1 := Perform(o, ws[0]);
            var o2 := Perform(o1, ws[1]);
            var o3 := Perform(o2, ws[2]);
            var o4 := Perform(o3, ws[3]);
            var o5 := Perform(o4, ws[4]);
            var o6 := Perform(o5, ws[5]);
            && PerformAll(o, ws) == o6
            && (BothHighOnTheWay(o, ws) <==>
                  !NoShootThrough(o1) || !NoShootThrough(o2) || !NoShootThrough(o3)
                  || !NoShootThrough(o4) || !NoShootThrough(o5) || !NoShootThrough(o6))
  {
    var o1 := Perform(o, ws[0]);
    var o2 := Perform(o1, ws[1]);
    var o3 := Perform(o2, ws[2]);
    var o4 := Perform(o3, ws[3]);
    var o5 := Perform(o4, ws[4]);
    assert ws[1..][0] == ws[1] && ws[1..][1..] == ws[2..];
    assert ws[2..][0] == ws[2] && ws[2..][1..] == ws[3..];
    assert ws[3..][0] == ws[3] && ws[3..][1..] == ws[4..];
    assert ws[4..][0] == ws[4] && ws[4..][1..] == ws[5..];
    assert ws[5..][0] == ws[5] && |ws[5..][1..]| == 0;
    Step(o, ws);
    Step(o1, ws[1..]);
    Step(o2, ws[2..]);
    Step(o3, ws[3..]);
    Step(o4, ws[4..]);
    Step(o5, ws[5..]);
  }

  lemma Step(o: Outputs, ws: seq<Write>)
    requires |ws| > 0
    ensures PerformAll(o, ws) == PerformAll(Perform(o, ws[0]), ws[1..])
    ensures BothHighOnTheWay(o, ws)
            <==> !NoShootThrough(Perform(o, ws[0])) || BothHighOnTheWay(Perform(o, ws[0]), ws[1..])
  {
  }

  /** The firmware's calls leave the target levels, both motors at the given
      duty and the LED alone. */
  lemma FirmwareLevels(o: Outputs, m: Movement, pwm: int)
    ensures var (lf, lr, rf, rr) := TargetLevels(m);
            PerformAll(o, FirmwareWrites(m, pwm)) == Outputs(lf, lr, rf, rr, pwm, pwm, o.ledDuty)
  {
    Unfold6(o, FirmwareWrites(m, pwm));
  }

  /** A movement: the firmware's calls, both motors at the duty of the
      current speed (0 for a stop). */
  function Move(c: Controller, m: Movement): (r: Controller)
    ensures var (lf, lr, rf, rr) := TargetLevels(m);
            var pwm := if m == Halt then 0 else Duty(c.currentSpeed);
            r == Controller(c.currentSpeed, Outputs(lf, lr, rf, rr, pwm, pwm, c.out.ledDuty))
  {
    var pwm := if m == Halt then 0 else Duty(c.currentSpeed);
    FirmwareLevels(c.out, m, pwm);
    Controller(c.currentSpeed, PerformAll(c.out, FirmwareWrites(m, pwm)))
  }

  /** Properties shared by every movement command: the speed is unchanged,
      both motors get the same duty, that of the current speed. */
  predicate MovesAtCurrentSpeed(c: Controller, r: Controller) {
    && r.currentSpeed == c.currentSpeed
    && r.out.leftDuty == r.out.rightDuty == Duty(c.currentSpeed)
    && r.out.ledDuty == c.out.ledDuty
  }

  /** `moveForward`: both motors forward. */
  function MoveForward(c: Controller): (r: Controller)
    ensures MovesAtCurrentSpeed(c, r)
    ensures LeftDrive(r.out) == Forward && RightDrive(r.out) == Forward
  {
    Move(c, Forwards)
  }

  /** `moveBackward`: both motors in reverse. */
  function MoveBackward(c: Controller): (r: Controller)
    ensures MovesAtCurrentSpeed(c, r)
    ensures LeftDrive(r.out) == Reverse && RightDrive(r.out) == Reverse
  {
    Move(c, Backwards)
  }

  /** `turnLeft`: left motor in reverse, right motor forward. */
  function TurnLeft(c: Controller): (r: Controller)
    ensures MovesAtCurrentSpeed(c, r)
    ensures LeftDrive(r.out) == Reverse && RightDrive(r.out) == Forward
  {
    Move(c, LeftTurn)
  }

  /** `turnRight`: left motor forward, right motor in reverse. */
  function TurnRight(c: Controller): (r: Controller)
    ensures MovesAtCurrentSpeed(c, r)
    ensures LeftDrive(r.out) == Forward && RightDrive(r.out) == Reverse
  {
    Move(c, RightTurn)
  }

  /** `stopMovement`: every direction pin low and both motor duties 0. */
  function StopMovement(c: Controller): (r: Controller)
    ensures r.currentSpeed == c.currentSpeed && r.out.ledDuty == c.out.ledDuty
    ensures LeftDrive(r.out) == Coast && RightDrive(r.out) == Coast
    ensures r.out.leftDuty == 0 && r.out.rightDuty == 0
  {
    Move(c, Halt)
  }

  /** Backward is forward with every direction pin inverted, and the two
      turns are mirror images of each other. */
  lemma DirectionSymmetry(c: Controller)
    ensures var f := MoveForward(c).out;
            var b := MoveBackward(c).out;
            b == f.(leftFwd := !f.leftFwd, leftRev := !f.leftRev,
                    rightFwd := !f.rightFwd, rightRev := !f.rightRev)
    ensures var l := TurnLeft(c).out;
            var r := TurnRight(c).out;
            r == l.(leftFwd := l.rightFwd, leftRev := l.rightRev,
                    rightFwd := l.leftFwd, rightRev := l.leftRev)
  {
  }

  /** In the firmware's order a movement passes through a leg with both
      pins HIGH exactly when it turns a leg from reverse to forward: FWD is
      raised while REV is still HIGH from the previous command. */
  lemma FirmwareOrderBothHigh(o: Outputs, m: Movement, pwm: int)
    requires NoShootThrough(o)
    ensures BothHighOnTheWay(o, FirmwareWrites(m, pwm))
            <==> (TargetLevels(m).0 && o.leftRev) || (TargetLevels(m).2 && o.rightRev)
  {
    Unfold6(o, FirmwareWrites(m, pwm));
  }

  /** The transitions of the commands that pass through both pins of a leg
      HIGH: forward, or the turn that drives a leg forward, after backward,
      and one turn after the other. */
  lemma ReversalsPassThroughBothHigh(c: Controller)
    ensures var pwm := Duty(c.currentSpeed);
            && BothHighOnTheWay(MoveBackward(c).out, FirmwareWrites(Forwards, pwm))
            && BothHighOnTheWay(MoveBackward(c).out, FirmwareWrites(LeftTurn, pwm))
            && BothHighOnTheWay(MoveBackward(c).out, FirmwareWrites(RightTurn, pwm))
            && BothHighOnTheWay(TurnLeft(c).out, FirmwareWrites(Forwards, pwm))
            && BothHighOnTheWay(TurnLeft(c).out, FirmwareWrites(RightTurn, pwm))
            && BothHighOnTheWay(TurnRight(c).out, FirmwareWrites(Forwards, pwm))
            && BothHighOnTheWay(TurnRight(c).out, FirmwareWrites(LeftTurn, pwm))
  {
    var pwm := Duty(c.currentSpeed);
    FirmwareOrderBothHigh(MoveBackward(c).out, Forwards, pwm);
    FirmwareOrderBothHigh(MoveBackward(c).out, LeftTurn, pwm);
    FirmwareOrderBothHigh(MoveBackward(c).out, RightTurn, pwm);
    FirmwareOrderBothHigh(TurnLeft(c).out, Forwards, pwm);
    FirmwareOrderBothHigh(TurnLeft(c).out, RightTurn, pwm);
    FirmwareOrderBothHigh(TurnRight(c).out, Forwards, pwm);
    FirmwareOrderBothHigh(TurnRight(c).out, LeftTurn, pwm);
  }

  /** Break before make never has a leg with both pins HIGH, from any state
      without one, and ends at the same outputs as the firmware's order. */
  lemma BreakBeforeMakeNeverBothHigh(o: Outputs, m: Movement, pwm: int)
    requires NoShootThrough(o)
    ensures !BothHighOnTheWay(o, BreakBeforeMakeWrites(m, pwm))
    ensures PerformAll(o, BreakBeforeMakeWrites(m, pwm)) == PerformAll(o, FirmwareWrites(m, pwm))
  {
    Unfold6(o, BreakBeforeMakeWrites(m, pwm));
    FirmwareLevels(o, m, pwm);
  }

  /** The command words `handleRobotCommand` recognises. */
  datatype Word = SpeedWord | ForwardWord | BackwardWord | LeftWord | RightWord | StopWord | OtherWord

  /** The word a command string names; matching is exact and case-sensitive. */
  function WordOf(command: seq<char>): (w: Word)
    ensures w == SpeedWord <==> command == "speed"
    ensures w == ForwardWord <==> command == "forward"
    ensures w == BackwardWord <==> command == "backward"
    ensures w == LeftWord <==> command == "left"
    ensures w == RightWord <==> command == "right"
    ensures w == StopWord <==> command == "stop"
    ensures w == OtherWord <==>
              command !in {"speed", "forward", "backward", "left", "right", "stop"}
  {
    if command == "speed" then SpeedWord
    else if command == "forward" then ForwardWord
    else if command == "backward" then BackwardWord
    else if command == "left" then LeftWord
    else if command == "right" then RightWord
    else if command == "stop" then StopWord
    else OtherWord
  }

  /** `handleRobotCommand`: dispatch on the command word. The value is the
      already-parsed integer of the speed command; other words ignore it. An
      unknown word changes nothing. */
  function HandleRobotCommand(c: Controller, command: seq<char>, value: int): (r: Controller)
    ensures NoShootThrough(c.out) ==> NoShootThrough(r.out)
    ensures command != "speed" ==> r.currentSpeed == c.currentSpeed
    ensures WordOf(command) == OtherWord ==> r == c
  {
    match WordOf(command)
    case SpeedWord => SetSpeed(c, value)
    case ForwardWord => MoveForward(c)
    case BackwardWord => MoveBackward(c)
    case LeftWord => TurnLeft(c)
    case RightWord => TurnRight(c)
    case StopWord => StopMovement(c)
    case OtherWord => c
  }

  /** One robot command: its word and its value. */
  datatype Command = Command(word: seq<char>, value: int)

  function RunCommands(c: Controller, cmds: seq<Command>): Controller
    decreases |cmds|
  {
    if |cmds| == 0 then c
    else RunCommands(HandleRobotCommand(c, cmds[0].word, cmds[0].value), cmds[1..])
  }

  /** The conditions every reachable controller meets: no bridge leg is
      driven both ways, the speed is in 0-100 and every duty in 0-255. */
  predicate Safe(c: Controller) {
    && NoShootThrough(c.out)
    && 0 <= c.currentSpeed <= MaxSpeed
    && 0 <= c.out.leftDuty <= MaxDuty && 0 <= c.out.rightDuty <= MaxDuty
    && 0 <= c.out.ledDuty <= MaxDuty
  }

  lemma MoveKeepsSafe(c: Controller, r: Controller)
    requires Safe(c) && MovesAtCurrentSpeed(c, r) && NoShootThrough(r.out)
    ensures Safe(r)
  {
    var d := Duty(c.currentSpeed);
    assert r.out.leftDuty == d && r.out.rightDuty == d;
  }

  /** One command keeps a safe controller safe. */
  lemma CommandKeepsSafe(c: Controller, command: seq<char>, value: int)
    requires Safe(c)
    ensures Safe(HandleRobotCommand(c, command, value))
  {
    var r := HandleRobotCommand(c, command, value);
    match WordOf(command)
    case SpeedWord =>
    case StopWord =>
    case OtherWord =>
    case ForwardWord => MoveKeepsSafe(c, r);
    case BackwardWord => MoveKeepsSafe(c, r);
    case LeftWord => MoveKeepsSafe(c, r);
    case RightWord => MoveKeepsSafe(c, r);
  }

  /** Safety over any command sequence from a safe state. */
  lemma {:induction false} CommandsAreSafe(c: Controller, cmds: seq<Command>)
    requires Safe(c)
    ensures Safe(RunCommands(c, cmds))
    decreases |cmds|
  {
    if |cmds| > 0 {
      CommandKeepsSafe(c, cmds[0].word, cmds[0].value);
      CommandsAreSafe(HandleRobotCommand(c, cmds[0].word, cmds[0].value), cmds[1..]);
    }
  }

  /** Power-on is safe, so every command sequence after it is. */
  lemma InitialIsSafe(cmds: seq<Command>)
    ensures Safe(InitialController)
    ensures Safe(RunCommands(InitialController, cmds))
  {
    CommandsAreSafe(InitialController, cmds);
  }
}
