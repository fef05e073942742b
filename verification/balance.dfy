/** The balance controller of `src/self_balancing/balance.cpp` (from line 18
    on): one PID tick with an integral clamp, the composition of the PID
    output into a pair of wheel speeds, and the keyboard gain-adjust command.
    Floats are modelled as reals and `millis()` as a natural number of
    milliseconds. */
module Balance {
  import opened ArduinoMath

  /** `PIDController`: gains, controller memory and the base wheel speed. */
  datatype PID = PID(
    kp: real,
    ki: real,
    kd: real,
    integral: real,
    previousError: real,
    lastTime: nat,
    baseSpeed: int)

  /** The value `balancePID` starts with. */
  const InitialPID := PID(0.0, 0.0, 0.0, 0.0, 0.0, 0, 0)

  /** Bound of the anti-windup clamp on the integral accumulator. */
  const IntegralLimit: real := 100.0

  /** The integral accumulator is inside the anti-windup band. */
  predicate IntegralBounded(pid: PID) {
    -IntegralLimit <= pid.integral <= IntegralLimit
  }

  /** Two controllers carry the same gains and base speed. */
  predicate SameSettings(a: PID, b: PID) {
    a.kp == b.kp && a.ki == b.ki && a.kd == b.kd && a.baseSpeed == b.baseSpeed
  }

  /** Elapsed time since the previous tick, in seconds. */
  function Dt(pid: PID, now: nat): real
    requires now > pid.lastTime
  {
    (now - pid.lastTime) as real / 1000.0
  }

  datatype PIDStep = PIDStep(pid: PID, output: real)

  /** `updatePID`: one controller tick at time `now` for `error`. The source
      divides by the elapsed time without a guard, so the tick must come
      strictly after the previous one. */
  function UpdatePID(pid: PID, error: real, now: nat): (r: PIDStep)
    requires now > pid.lastTime
    ensures IntegralBounded(r.pid)
    ensures (-IntegralLimit <= pid.integral + error * Dt(pid, now) <= IntegralLimit
             ==> r.pid.integral == pid.integral + error * Dt(pid, now))
    ensures pid.integral + error * Dt(pid, now) > IntegralLimit ==> r.pid.integral == IntegralLimit
    ensures pid.integral + error * Dt(pid, now) < -IntegralLimit ==> r.pid.integral == -IntegralLimit
    ensures r.pid.previousError == error && r.pid.lastTime == now
    ensures SameSettings(r.pid, pid)
    ensures pid.ki == 0.0 && pid.kd == 0.0 ==> r.output == pid.kp * error
    ensures pid.kp == 0.0 && pid.kd == 0.0 ==> r.output == pid.ki * r.pid.integral
    ensures pid.kp == 0.0 && pid.ki == 0.0 ==>
              r.output == pid.kd * ((error - pid.previousError) / Dt(pid, now))
  {
    var dt := Dt(pid, now);
    var integral := ConstrainReal(pid.integral + error * dt, -IntegralLimit, IntegralLimit);
    assert -IntegralLimit <= pid.integral + error * dt <= IntegralLimit ==> integral == pid.integral + error * dt;
    var pTerm := pid.kp * error;
    var iTerm := pid.ki * integral;
    var dTerm := pid.kd * ((error - pid.previousError) / dt);
    PIDStep(pid.(integral := integral, previousError := error, lastTime := now), pTerm + iTerm + dTerm)
  }

  /** The output of a tick is the sum of the outputs the three terms give
      on their own: a P-only, an I-only and a D-only controller with the
      same memory. */
  lemma OutputIsSumOfTerms(pid: PID, error: real, now: nat)
    requires now > pid.lastTime
    ensures UpdatePID(pid, error, now).output
            == UpdatePID(pid.(ki := 0.0, kd := 0.0), error, now).output
             + UpdatePID(pid.(kp := 0.0, kd := 0.0), error, now).output
             + UpdatePID(pid.(kp := 0.0, ki := 0.0), error, now).output
  {
    var dt := Dt(pid, now);
    var full := UpdatePID(pid, error, now);
    var integral := full.pid.integral;
    assert full.output == pid.kp * error + pid.ki * integral + pid.kd * ((error - pid.previousError) / dt);
    assert UpdatePID(pid.(ki := 0.0, kd := 0.0), error, now).output == pid.kp * error;
    assert UpdatePID(pid.(kp := 0.0, kd := 0.0), error, now).pid.integral == integral;
    assert UpdatePID(pid.(kp := 0.0, kd := 0.0), error, now).output == pid.ki * integral;
    assert Dt(pid.(kp := 0.0, ki := 0.0), now) == dt;
    assert UpdatePID(pid.(kp := 0.0, ki := 0.0), error, now).output
        == pid.kd * ((error - pid.previousError) / dt);
  }

  /** One controller tick: the error fed in and the time of the call. */
  datatype Tick = Tick(error: real, now: nat)

  /** The tick times are strictly increasing, all after `last`. */
  predicate TicksAfter(last: nat, ticks: seq<Tick>)
    decreases |ticks|
  {
    |ticks| == 0 || (ticks[0].now > last && TicksAfter(ticks[0].now, ticks[1..]))
  }

  /** The controller after a run of ticks, with the outputs of every tick. */
  function RunPID(pid: PID, ticks: seq<Tick>): (r: (PID, seq<real>))
    requires TicksAfter(pid.lastTime, ticks)
    decreases |ticks|
    ensures |r.1| == |ticks|
  {
    if |ticks| == 0 then (pid, [])
    else
      var step := UpdatePID(pid, ticks[0].error, ticks[0].now);
      var rest := RunPID(step.pid, ticks[1..]);
      (rest.0, [step.output] + rest.1)
  }

  /** Anti-windup: after any non-empty run of ticks the integral accumulator
      lies in [-100, 100], whatever value it started from; the gains and the
      base speed never change. */
  lemma {:induction false} RunKeepsIntegralBounded(pid: PID, ticks: seq<Tick>)
    requires TicksAfter(pid.lastTime, ticks)
    ensures |ticks| > 0 ==> IntegralBounded(RunPID(pid, ticks).0)
    ensures SameSettings(RunPID(pid, ticks).0, pid)
    decreases |ticks|
  {
    if |ticks| > 0 {
      var step := UpdatePID(pid, ticks[0].error, ticks[0].now);
      RunKeepsIntegralBounded(step.pid, ticks[1..]);
    }
  }

  /** A purely proportional controller (ki = kd = 0) outputs kp times the
      error on every tick of a run, with no drift from the integral. */
  lemma {:induction false} ProportionalRun(pid: PID, ticks: seq<Tick>)
    requires TicksAfter(pid.lastTime, ticks)
    requires pid.ki == 0.0 && pid.kd == 0.0
    ensures forall i :: 0 <= i < |ticks| ==> RunPID(pid, ticks).1[i] == pid.kp * ticks[i].error
    decreases |ticks|
  {
    if |ticks| > 0 {
      var step := UpdatePID(pid, ticks[0].error, ticks[0].now);
      ProportionalRun(step.pid, ticks[1..]);
    }
  }

  /** The pair of wheel speeds `balanceRobot` hands to the motors. */
  datatype MotorCommand = MotorCommand(left: int, right: int)

  datatype BalanceStep = BalanceStep(pid: PID, command: MotorCommand)

  /** `balanceRobot`: the error is the angle minus the target, the PID runs
      one tick on it, and both wheels get the base speed plus the PID output,
      converted to `int` by truncation. The angle itself comes from
      `calculateAngle`, so it is a parameter here. */
  function BalanceRobot(pid: PID, angle: real, targetAngle: real, now: nat): (r: BalanceStep)
    requires now > pid.lastTime
    ensures r.command.left == r.command.right
    ensures r.pid == UpdatePID(pid, angle - targetAngle, now).pid
    ensures var v := pid.baseSpeed as real + UpdatePID(pid, angle - targetAngle, now).output;
            && (v >= 0.0 ==> r.command.left as real <= v < r.command.left as real + 1.0)
            && (v < 0.0 ==> r.command.left as real - 1.0 < v <= r.command.left as real)
    ensures (angle == targetAngle && pid.integral == 0.0 && pid.previousError == 0.0
             ==> r.command == MotorCommand(pid.baseSpeed, pid.baseSpeed))
  {
    var error := angle - targetAngle;
    var step := UpdatePID(pid, error, now);
    var speed := TruncToInt(step.pid.baseSpeed as real + step.output);
    BalanceStep(step.pid, MotorCommand(speed, speed))
  }

  /** `adjustPIDGains`: a single-character command that nudges one gain or
      the base speed; any other character changes nothing. */
  function AdjustPIDGains(pid: PID, key: char): (r: PID)
    ensures r.integral == pid.integral && r.previousError == pid.previousError
    ensures r.lastTime == pid.lastTime
    ensures key != 'w' && key != 's' ==> r.kp == pid.kp
    ensures key != 'e' && key != 'd' ==> r.ki == pid.ki
    ensures key != 'r' && key != 'f' ==> r.kd == pid.kd
    ensures key != 'q' && key != 'a' ==> r.baseSpeed == pid.baseSpeed
    ensures key == 'w' ==> r.kp == pid.kp + 0.1
    ensures key == 's' ==> r.kp == pid.kp - 0.1
    ensures key == 'e' ==> r.ki == pid.ki + 0.01
    ensures key == 'd' ==> r.ki == pid.ki - 0.01
    ensures key == 'r' ==> r.kd == pid.kd + 0.01
    ensures key == 'f' ==> r.kd == pid.kd - 0.01
    ensures key == 'q' ==> r.baseSpeed == pid.baseSpeed + 5
    ensures key == 'a' ==> r.baseSpeed >= 0
    ensures key == 'a' && pid.baseSpeed >= 5 ==> r.baseSpeed == pid.baseSpeed - 5
    ensures key == 'a' && pid.baseSpeed < 5 ==> r.baseSpeed == 0
  {
    if key == 'w' then pid.(kp := pid.kp + 0.1)
    else if key == 's' then pid.(kp := pid.kp - 0.1)
    else if key == 'e' then pid.(ki := pid.ki + 0.01)
    else if key == 'd' then pid.(ki := pid.ki - 0.01)
    else if key == 'r' then pid.(kd := pid.kd + 0.01)
    else if key == 'f' then pid.(kd := pid.kd - 0.01)
    else if key == 'q' then pid.(baseSpeed := pid.baseSpeed + 5)
    else if key == 'a' then
      var b := pid.baseSpeed - 5;
      pid.(baseSpeed := if b < 0 then 0 else b)
    else pid
  }

  /** Each increase key is undone by its decrease key: w/s on kp, e/d on ki,
      r/f on kd, and q/a on a non-negative base speed. */
  lemma AdjustKeysUndo(pid: PID)
    ensures AdjustPIDGains(AdjustPIDGains(pid, 'w'), 's') == pid
    ensures AdjustPIDGains(AdjustPIDGains(pid, 'e'), 'd') == pid
    ensures AdjustPIDGains(AdjustPIDGains(pid, 'r'), 'f') == pid
    ensures pid.baseSpeed >= 0 ==> AdjustPIDGains(AdjustPIDGains(pid, 'q'), 'a') == pid
  {
  }

  /** The controller after a sequence of keyboard commands. */
  function RunKeys(pid: PID, keys: seq<char>): PID
    decreases |keys|
  {
    if |keys| == 0 then pid else RunKeys(AdjustPIDGains(pid, keys[0]), keys[1..])
  }

  /** No sequence of keys makes a non-negative base speed negative, and no
      key ever touches the controller's memory. */
  lemma {:induction false} KeysKeepBaseSpeedAndMemory(pid: PID, keys: seq<char>)
    ensures pid.baseSpeed >= 0 ==> RunKeys(pid, keys).baseSpeed >= 0
    ensures RunKeys(pid, keys).integral == pid.integral
    ensures RunKeys(pid, keys).previousError == pid.previousError
    ensures RunKeys(pid, keys).lastTime == pid.lastTime
    decreases |keys|
  {
    if |keys| > 0 {
      KeysKeepBaseSpeedAndMemory(AdjustPIDGains(pid, keys[0]), keys[1..]);
    }
  }
}
