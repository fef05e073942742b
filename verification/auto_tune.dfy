/** The relay-feedback auto-tuner of `src/self_balancing/auto_tune.cpp`: a
    state machine that takes over the PID gains, raises (then lowers) a test
    kp until the angle oscillates, and derives gains from the ultimate gain
    with the Ziegler-Nichols relations. The file-level statics, including the
    function-level statics of the crossing detector, form the `Tuner` record;
    `balancePID` is the `PID` beside it. The angle and `millis()` are
    parameters. */
module AutoTune {
  import opened Wrappers
  import opened Balance

  /** `AutoTuneState`. `Calculating` is declared by the firmware but never
      entered. */
  datatype Phase = Idle | RelayTest | Calculating | Complete | Failed

  /** `AutoTuneParams`; times in milliseconds. */
  datatype Params = Params(
    kpStart: real,
    kpIncrement: real,
    maxKp: real,
    oscillationThreshold: real,
    settleTime: nat,
    testDuration: nat)

  /** The parameters the firmware is built with. */
  const DefaultParams := Params(1.0, 0.5, 20.0, 2.0, 2000, 10000)

  /** `AutoTuneResults`: the ultimate gain Ku, the period Tu in seconds and
      the derived gains. */
  datatype Results = Results(
    ultimateGain: real,
    oscillationPeriod: real,
    kp: real,
    ki: real,
    kd: real,
    valid: bool)

  /** The cleared results `resetAutoTuneResults` writes. */
  const ClearedResults := Results(0.0, 0.0, 0.0, 0.0, 0.0, false)

  /** The two static locals of the crossing detector, which are initialised
      once, from the first angle that reaches them, and then persist across
      tuning sessions. */
  datatype CrossingMemory = CrossingMemory(prevAngle: real, wasPositive: bool)

  /** The tuner's globals and statics. */
  datatype Tuner = Tuner(
    phase: Phase,
    params: Params,
    results: Results,
    originalKp: real,
    originalKi: real,
    originalKd: real,
    tuneStartTime: nat,
    lastOscillationTime: nat,
    maxAngle: real,
    minAngle: real,
    oscillationCount: int,
    increasingKp: bool,
    currentTestKp: real,
    crossing: Option<CrossingMemory>)

  /** The tuner together with the controller whose gains it drives. */
  datatype System = System(tuner: Tuner, pid: PID)

  /** The state at power-on: statics are zero, the tuner idle. */
  const InitialTuner := Tuner(Idle, DefaultParams, ClearedResults, 0.0, 0.0, 0.0,
                              0, 0, 0.0, 0.0, 0, false, 0.0, None)

  /** Angle bounds a test segment starts its running max and min from. */
  const ResetMaxAngle: real := -1000.0
  const ResetMinAngle: real := 1000.0

  /** Minimum angle change for a sign flip to count as an oscillation. */
  const CrossingDelta: real := 0.5

  /** Oscillations needed before the result is accepted. */
  const RequiredOscillations: int := 3

  /** Oscillations after which the search switches to decreasing kp. */
  const ReverseAfter: int := 2

  function Abs(x: real): real {
    if x > 0.0 then x else -x
  }

  /** `isAutoTuneActive`: every phase but idle counts as active, so a
      finished or failed tuner stays active until it is stopped or
      re-initialised. */
  function IsAutoTuneActive(t: Tuner): (r: bool)
    ensures r <==> t.phase in {RelayTest, Calculating, Complete, Failed}
  {
    t.phase != Idle
  }

  /** The gains a controller carries. */
  function Gains(pid: PID): (real, real, real) {
    (pid.kp, pid.ki, pid.kd)
  }

  /** `initAutoTune`: back to idle with cleared results. It does not restore
      the saved gains. */
  function InitAutoTune(s: System): (r: System)
    ensures r.tuner.phase == Idle && !r.tuner.results.valid
    ensures r.tuner == s.tuner.(phase := Idle, results := ClearedResults)
    ensures r.pid == s.pid
  {
    System(s.tuner.(phase := Idle, results := ClearedResults), s.pid)
  }

  /** `resetAutoTuneResults`. */
  function ResetAutoTuneResults(s: System): (r: System)
    ensures !r.tuner.results.valid
    ensures r.tuner.phase == s.tuner.phase && r.pid == s.pid
    ensures r.tuner == s.tuner.(results := ClearedResults)
  {
    System(s.tuner.(results := ClearedResults), s.pid)
  }

  /** `startAutoTune` at time `now`: only from idle; saves the gains, puts
      the controller on a pure-proportional kp = kpStart, clears its memory
      and starts the first test segment. */
  function StartAutoTune(s: System, now: nat): (r: System)
    ensures (r.tuner.phase != s.tuner.phase) <==> !IsAutoTuneActive(s.tuner)
    ensures IsAutoTuneActive(s.tuner) ==> r == s
    ensures !IsAutoTuneActive(s.tuner) ==>
              && r.tuner.phase == RelayTest
              && (r.tuner.originalKp, r.tuner.originalKi, r.tuner.originalKd) == Gains(s.pid)
              && r.pid == s.pid.(kp := s.tuner.params.kpStart, ki := 0.0, kd := 0.0,
                                 integral := 0.0, previousError := 0.0)
              && r.tuner.currentTestKp == s.tuner.params.kpStart
              && r.tuner.increasingKp && r.tuner.oscillationCount == 0
              && r.tuner.tuneStartTime == now && r.tuner.lastOscillationTime == 0
              && r.tuner.maxAngle == ResetMaxAngle && r.tuner.minAngle == ResetMinAngle
              && r.tuner.params == s.tuner.params
              && r.tuner.results == s.tuner.results && r.tuner.crossing == s.tuner.crossing
  {
    if s.tuner.phase != Idle then s
    else
      var t := s.tuner;
      var t' := t.(
        originalKp := s.pid.kp,
        originalKi := s.pid.ki,
        originalKd := s.pid.kd,
        currentTestKp := t.params.kpStart,
        increasingKp := true,
        maxAngle := ResetMaxAngle,
        minAngle := ResetMinAngle,
        oscillationCount := 0,
        lastOscillationTime := 0,
        tuneStartTime := now,
        phase := RelayTest);
      var pid' := s.pid.(kp := t.params.kpStart, ki := 0.0, kd := 0.0,
                         integral := 0.0, previousError := 0.0);
      System(t', pid')
  }

  /** `stopAutoTune`: from any active state, restores the saved gains, clears
      the controller memory and returns to idle. */
  function StopAutoTune(s: System): (r: System)
    ensures (r.tuner.phase != s.tuner.phase) <==> IsAutoTuneActive(s.tuner)
    ensures !IsAutoTuneActive(s.tuner) ==> r == s
    ensures IsAutoTuneActive(s.tuner) ==>
              && r.tuner == s.tuner.(phase := Idle)
              && Gains(r.pid) == (s.tuner.originalKp, s.tuner.originalKi, s.tuner.originalKd)
              && r.pid.integral == 0.0 && r.pid.previousError == 0.0
              && r.pid.lastTime == s.pid.lastTime && r.pid.baseSpeed == s.pid.baseSpeed
  {
    if s.tuner.phase == Idle then s
    else
      var t := s.tuner;
      System(t.(phase := Idle),
             s.pid.(kp := t.originalKp, ki := t.originalKi, kd := t.originalKd,
                    integral := 0.0, previousError := 0.0))
  }

  /** `applyAutoTuneResults`: with valid results, copies the tuned gains into
      the controller and clears its memory. The tuner state is not checked. */
  function ApplyAutoTuneResults(s: System): (r: System)
    ensures r.tuner == s.tuner
    ensures !s.tuner.results.valid ==> r == s
    ensures s.tuner.results.valid ==>
              && Gains(r.pid) == (s.tuner.results.kp, s.tuner.results.ki, s.tuner.results.kd)
              && r.pid.integral == 0.0 && r.pid.previousError == 0.0
              && r.pid.lastTime == s.pid.lastTime && r.pid.baseSpeed == s.pid.baseSpeed
  {
    if !s.tuner.results.valid then s
    else
      var res := s.tuner.results;
      System(s.tuner, s.pid.(kp := res.kp, ki := res.ki, kd := res.kd,
                             integral := 0.0, previousError := 0.0))
  }

  /** The crossing memory in effect for this angle: the stored one, or the
      one the statics are initialised with on their first use. */
  function MemoryFor(t: Tuner, angle: real): CrossingMemory {
    match t.crossing
    case Some(m) => m
    case None => CrossingMemory(angle, angle > 0.0)
  }

  /** The angle counts as an oscillation: its sign differs from the recorded
      one and it moved more than the minimum delta since the previous
      sample. */
  predicate Crosses(t: Tuner, angle: real) {
    var m := MemoryFor(t, angle);
    m.wasPositive != (angle > 0.0) && Abs(angle - m.prevAngle) > CrossingDelta
  }

  /** Zero-crossing detection, the last part of `updateAutoTune`. */
  function DetectCrossing(t: Tuner, angle: real, now: nat): (r: Tuner)
    ensures Crosses(t, angle) ==>
              && r.oscillationCount == t.oscillationCount + 1
              && r.lastOscillationTime == now
              && r.crossing == Some(CrossingMemory(angle, angle > 0.0))
              && r.increasingKp == (t.increasingKp && r.oscillationCount < ReverseAfter)
    ensures !Crosses(t, angle) ==>
              r == t.(crossing := Some(CrossingMemory(angle, MemoryFor(t, angle).wasPositive)))
    ensures r.(oscillationCount := t.oscillationCount, lastOscillationTime := t.lastOscillationTime,
               increasingKp := t.increasingKp, crossing := t.crossing) == t
  {
    var m := MemoryFor(t, angle);
    var isPositive := angle > 0.0;
    if m.wasPositive != isPositive && Abs(angle - m.prevAngle) > CrossingDelta then
      var count := t.oscillationCount + 1;
      t.(oscillationCount := count,
         lastOscillationTime := now,
         increasingKp := if count >= ReverseAfter then false else t.increasingKp,
         crossing := Some(CrossingMemory(angle, isPositive)))
    else
      t.(crossing := Some(CrossingMemory(angle, m.wasPositive)))
  }

  /** What `updateAutoTune` needs of the clock while a test runs: time does
      not go back past the segment start, and a tick that completes the test
      comes strictly after the last counted oscillation (so the measured
      period, which the firmware divides by, is positive). */
  predicate ClockOk(t: Tuner, angle: real, now: nat) {
    t.phase == RelayTest ==>
      now >= t.tuneStartTime && (Completes(t, angle) ==> now > t.lastOscillationTime)
  }

  function MaxOf(a: real, b: real): real { if a > b then a else b }
  function MinOf(a: real, b: real): real { if a < b then a else b }

  /** The completion rule: enough amplitude over the segment, including
      this angle, and enough counted oscillations. */
  predicate Completes(t: Tuner, angle: real) {
    MaxOf(angle, t.maxAngle) - MinOf(angle, t.minAngle) >= t.params.oscillationThreshold
    && t.oscillationCount >= RequiredOscillations
  }

  /** The current test segment has run longer than the test duration. */
  predicate SegmentExpired(t: Tuner, now: nat)
    requires now >= t.tuneStartTime
  {
    now - t.tuneStartTime > t.params.testDuration
  }

  /** The next test kp of an escalation. */
  function NextTestKp(t: Tuner): real {
    if t.increasingKp then t.currentTestKp + t.params.kpIncrement
    else t.currentTestKp - t.params.kpIncrement * 0.5
  }

  /** The next test kp leaves the search range in the current direction. */
  predicate EscalationFails(t: Tuner) {
    if t.increasingKp then NextTestKp(t) > t.params.maxKp
    else NextTestKp(t) < t.params.kpStart
  }

  /** What the crossing detection at the end of a tick that stays in the
      relay test does, stated against the tuner before the tick: the count
      (restarted from 0 when the segment expired) gains one exactly when the
      angle crosses, which also stamps the time and may end the increasing
      search; the crossing memory then holds this angle and the new sign on a
      crossing, the old one otherwise. */
  predicate CrossingStep(t: Tuner, t': Tuner, angle: real, now: nat)
    requires now >= t.tuneStartTime
  {
    var crosses := Crosses(t, angle);
    && t'.oscillationCount
       == (if SegmentExpired(t, now) then 0 else t.oscillationCount) + (if crosses then 1 else 0)
    && t'.lastOscillationTime == (if crosses then now else t.lastOscillationTime)
    && t'.increasingKp == (t.increasingKp && !(crosses && t'.oscillationCount >= ReverseAfter))
    && t'.crossing
       == Some(CrossingMemory(angle, if crosses then angle > 0.0 else MemoryFor(t, angle).wasPositive))
  }

  /** `updateAutoTune` for the angle read at time `now`, in the firmware's
      order: running max and min, completion check, escalation of kp when
      the segment expired, then crossing detection. */
  function UpdateAutoTune(s: System, angle: real, now: nat): (r: System)
    requires ClockOk(s.tuner, angle, now)
    ensures s.tuner.phase != RelayTest ==> r == s
    ensures r.tuner.results != s.tuner.results ==> r.tuner.phase == Complete
    ensures s.tuner.phase == RelayTest ==>
              && r.tuner.phase in {RelayTest, Complete, Failed}
              && (r.tuner.phase == Complete <==> Completes(s.tuner, angle))
              && (r.tuner.phase == Failed <==>
                    !Completes(s.tuner, angle) && SegmentExpired(s.tuner, now) && EscalationFails(s.tuner))
    ensures r.tuner.phase == Complete && s.tuner.phase == RelayTest ==>
              var res := r.tuner.results;
              && res.valid
              && res.ultimateGain == s.tuner.currentTestKp
              && res.oscillationPeriod * 1000.0 == (now - s.tuner.lastOscillationTime) as real
              && res.oscillationPeriod > 0.0
              && res.kp == 0.6 * res.ultimateGain
              && res.ki * res.oscillationPeriod == 1.2 * res.ultimateGain
              && res.kd == 0.075 * res.ultimateGain * res.oscillationPeriod
              && r.pid == s.pid
    ensures r.tuner.phase == Failed && s.tuner.phase == RelayTest ==> r.pid == s.pid
    ensures s.tuner.phase == RelayTest && r.tuner.phase == Complete ==>
              r.tuner == s.tuner.(maxAngle := MaxOf(angle, s.tuner.maxAngle),
                                  minAngle := MinOf(angle, s.tuner.minAngle),
                                  results := r.tuner.results, phase := Complete)
    ensures s.tuner.phase == RelayTest && r.tuner.phase == Failed ==>
              r.tuner == s.tuner.(maxAngle := MaxOf(angle, s.tuner.maxAngle),
                                  minAngle := MinOf(angle, s.tuner.minAngle),
                                  currentTestKp := NextTestKp(s.tuner), phase := Failed)
    ensures r.pid.(kp := s.pid.kp) == s.pid
    ensures r.pid.kp != s.pid.kp ==>
              && r.tuner.phase == RelayTest
              && SegmentExpired(s.tuner, now)
              && r.pid.kp == r.tuner.currentTestKp == NextTestKp(s.tuner)
              && r.tuner.tuneStartTime == now
    ensures s.tuner.phase == RelayTest && !Completes(s.tuner, angle) && SegmentExpired(s.tuner, now)
            && !EscalationFails(s.tuner) ==>
              && r.tuner.phase == RelayTest
              && r.pid.kp == r.tuner.currentTestKp == NextTestKp(s.tuner)
              && r.tuner.tuneStartTime == now
              && r.tuner.maxAngle == ResetMaxAngle && r.tuner.minAngle == ResetMinAngle
              && 0 <= r.tuner.oscillationCount <= 1
    ensures s.tuner.phase == RelayTest && !Completes(s.tuner, angle) && !SegmentExpired(s.tuner, now) ==>
              && r.tuner.phase == RelayTest && r.pid == s.pid
              && r.tuner.currentTestKp == s.tuner.currentTestKp
              && r.tuner.tuneStartTime == s.tuner.tuneStartTime
              && r.tuner.maxAngle == MaxOf(angle, s.tuner.maxAngle)
              && r.tuner.minAngle == MinOf(angle, s.tuner.minAngle)
              && s.tuner.oscillationCount <= r.tuner.oscillationCount <= s.tuner.oscillationCount + 1
    ensures s.tuner.phase == RelayTest && r.tuner.phase == RelayTest ==>
              CrossingStep(s.tuner, r.tuner, angle, now)
    ensures !s.tuner.increasingKp ==> !r.tuner.increasingKp
    ensures r.tuner.increasingKp != s.tuner.increasingKp ==> r.tuner.oscillationCount >= ReverseAfter
    ensures (r.tuner.originalKp, r.tuner.originalKi, r.tuner.originalKd)
            == (s.tuner.originalKp, s.tuner.originalKi, s.tuner.originalKd)
    ensures r.tuner.params == s.tuner.params
  {
    var t := s.tuner;
    if t.phase != RelayTest then s
    else
      var t1 := t.(maxAngle := MaxOf(angle, t.maxAngle), minAngle := MinOf(angle, t.minAngle));
      var amplitude := t1.maxAngle - t1.minAngle;
      if amplitude >= t.params.oscillationThreshold && t.oscillationCount >= RequiredOscillations then
        var ku := t.currentTestKp;
        var tu := (now - t.lastOscillationTime) as real / 1000.0;
        var res := Results(ku, tu, 0.6 * ku, 1.2 * ku / tu, 0.075 * ku * tu, true);
        System(t1.(results := res, phase := Complete), s.pid)
      else if now - t.tuneStartTime > t.params.testDuration then
        var kp := NextTestKp(t);
        var t2 := t1.(currentTestKp := kp);
        if (t.increasingKp && kp > t.params.maxKp) || (!t.increasingKp && kp < t.params.kpStart) then
          System(t2.(phase := Failed), s.pid)
        else
          var t3 := t2.(maxAngle := ResetMaxAngle, minAngle := ResetMinAngle,
                        oscillationCount := 0, tuneStartTime := now);
          System(DetectCrossing(t3, angle, now), s.pid.(kp := kp))
      else
        System(DetectCrossing(t1, angle, now), s.pid)
  }

  /** Parameters whose search range is well formed. */
  predicate SaneParams(p: Params) {
    0.0 <= p.kpIncrement && p.kpStart <= p.maxKp
  }

  /** The tuner never sits in `Calculating`, and while a relay test runs
      its test kp lies inside [kpStart, maxKp]. */
  predicate TunerInRange(t: Tuner) {
    && t.phase != Calculating
    && (t.phase == RelayTest ==> t.params.kpStart <= t.currentTestKp <= t.params.maxKp)
  }

  /** While a relay test runs the controller carries the test kp with no
      integral or derivative gain. */
  predicate ControllerAtTestKp(s: System) {
    s.tuner.phase == RelayTest ==>
      && s.pid.kp == s.tuner.currentTestKp
      && s.pid.ki == 0.0 && s.pid.kd == 0.0
  }

  /** The full test invariant: the tuner in range and the controller on the
      test gains. */
  predicate TestInvariant(s: System) {
    TunerInRange(s.tuner) && ControllerAtTestKp(s)
  }

  /** The calls that act on the tuner and its controller: the tuner's own
      entry points and a controller tick for an error at a time. */
  datatype Event =
    | Start(now: nat)
    | Stop
    | Update(angle: real, now: nat)
    | ApplyResults
    | ResetResults
    | Init
    | ControlTick(error: real, now: nat)

  /** An event the model can take in state `s`: the clock conditions of
      `updateAutoTune` and `updatePID`. */
  predicate Allowed(s: System, e: Event) {
    match e
    case Update(angle, now) => ClockOk(s.tuner, angle, now)
    case ControlTick(_, now) => now > s.pid.lastTime
    case _ => true
  }

  function Step(s: System, e: Event): System
    requires Allowed(s, e)
  {
    match e
    case Start(now) => StartAutoTune(s, now)
    case Stop => StopAutoTune(s)
    case Update(angle, now) => UpdateAutoTune(s, angle, now)
    case ApplyResults => ApplyAutoTuneResults(s)
    case ResetResults => ResetAutoTuneResults(s)
    case Init => InitAutoTune(s)
    case ControlTick(error, now) => System(s.tuner, UpdatePID(s.pid, error, now).pid)
  }

  predicate Runnable(s: System, events: seq<Event>)
    decreases |events|
  {
    |events| == 0 || (Allowed(s, events[0]) && Runnable(Step(s, events[0]), events[1..]))
  }

  function Run(s: System, events: seq<Event>): System
    requires Runnable(s, events)
    decreases |events|
  {
    if |events| == 0 then s else Run(Step(s, events[0]), events[1..])
  }

  /** An event applies valid results while a relay test runs: the one call
      the firmware does not guard that moves the controller off the test
      gains. */
  predicate AppliesMidTest(s: System, e: Event) {
    e.ApplyResults? && s.tuner.phase == RelayTest && s.tuner.results.valid
  }

  /** Some event of the run applies valid results during a relay test. */
  predicate RunAppliesMidTest(s: System, events: seq<Event>)
    requires Runnable(s, events)
    decreases |events|
  {
    |events| > 0 && (AppliesMidTest(s, events[0]) || RunAppliesMidTest(Step(s, events[0]), events[1..]))
  }

  /** Every event keeps the tuner's test kp inside the search range. */
  lemma StepKeepsTunerRange(s: System, e: Event)
    requires SaneParams(s.tuner.params) && TunerInRange(s.tuner) && Allowed(s, e)
    ensures TunerInRange(Step(s, e).tuner)
    ensures Step(s, e).tuner.params == s.tuner.params
  {
    match e
    case Update(angle, now) =>
      var r := UpdateAutoTune(s, angle, now);
      if s.tuner.phase == RelayTest && r.tuner.phase == RelayTest && SegmentExpired(s.tuner, now)
         && !Completes(s.tuner, angle) {
        assert r.tuner.currentTestKp == NextTestKp(s.tuner);
      }
    case _ =>
  }

  /** Over any run of calls, the test kp never leaves [kpStart, maxKp]. */
  lemma {:induction false} RunKeepsTunerRange(s: System, events: seq<Event>)
    requires SaneParams(s.tuner.params) && TunerInRange(s.tuner) && Runnable(s, events)
    ensures TunerInRange(Run(s, events).tuner)
    ensures Run(s, events).tuner.params == s.tuner.params
    decreases |events|
  {
    if |events| > 0 {
      StepKeepsTunerRange(s, events[0]);
      RunKeepsTunerRange(Step(s, events[0]), events[1..]);
    }
  }

  /** One event keeps the test invariant unless it applies valid results in
      the middle of a relay test, and any kp the tuner writes lies in the
      search range. */
  lemma StepKeepsInvariant(s: System, e: Event)
    requires SaneParams(s.tuner.params) && TestInvariant(s) && Allowed(s, e)
    ensures !AppliesMidTest(s, e) ==> TestInvariant(Step(s, e))
    ensures Step(s, e).tuner.params == s.tuner.params
    ensures ((e.Start? || e.Update?) && Step(s, e).pid.kp != s.pid.kp
             ==> s.tuner.params.kpStart <= Step(s, e).pid.kp <= s.tuner.params.maxKp)
  {
    StepKeepsTunerRange(s, e);
    match e
    case Update(angle, now) =>
      var r := UpdateAutoTune(s, angle, now);
      if s.tuner.phase == RelayTest && r.tuner.phase == RelayTest && SegmentExpired(s.tuner, now)
         && !Completes(s.tuner, angle) {
        assert r.pid.kp == NextTestKp(s.tuner) == r.tuner.currentTestKp;
      }
    case _ =>
  }

  /** Auto-tune safety over any run: starting from a state that satisfies the
      invariant, the relay test never drives kp outside [kpStart, maxKp] and
      never leaves ki or kd non-zero, unless valid results are applied while
      a test runs. */
  lemma {:induction false} RunKeepsInvariant(s: System, events: seq<Event>)
    requires SaneParams(s.tuner.params) && TestInvariant(s) && Runnable(s, events)
    ensures !RunAppliesMidTest(s, events) ==> TestInvariant(Run(s, events))
    ensures Run(s, events).tuner.params == s.tuner.params
    decreases |events|
  {
    if |events| > 0 {
      StepKeepsInvariant(s, events[0]);
      if !AppliesMidTest(s, events[0]) {
        RunKeepsInvariant(Step(s, events[0]), events[1..]);
      } else {
        RunKeepsTunerRange(Step(s, events[0]), events[1..]);
      }
    }
  }

  /** The power-on state satisfies the invariant. */
  lemma InitialStateSatisfiesInvariant(pid: PID)
    ensures SaneParams(InitialTuner.params)
    ensures TestInvariant(System(InitialTuner, pid))
  {
  }

  /** Events that neither start, stop nor re-initialise the tuner. */
  predicate MidSession(e: Event) {
    e.Update? || e.ApplyResults? || e.ResetResults? || e.ControlTick?
  }

  /** Activity follows the entry points: starting from idle makes the tuner
      active, and stopping or re-initialising makes it idle. */
  lemma ActivityTransitions(s: System, now: nat)
    ensures !IsAutoTuneActive(s.tuner) ==> IsAutoTuneActive(StartAutoTune(s, now).tuner)
    ensures IsAutoTuneActive(s.tuner) ==> IsAutoTuneActive(StartAutoTune(s, now).tuner)
    ensures !IsAutoTuneActive(StopAutoTune(s).tuner)
    ensures !IsAutoTuneActive(InitAutoTune(s).tuner)
  {
  }

  /** Mid-session events keep the tuner active and the saved gains intact. */
  lemma {:induction false} MidSessionKeepsSavedGains(s: System, events: seq<Event>)
    requires Runnable(s, events)
    requires forall i :: 0 <= i < |events| ==> MidSession(events[i])
    ensures IsAutoTuneActive(Run(s, events).tuner) == IsAutoTuneActive(s.tuner)
    ensures var t := Run(s, events).tuner;
            (t.originalKp, t.originalKi, t.originalKd) == (s.tuner.originalKp, s.tuner.originalKi, s.tuner.originalKd)
    decreases |events|
  {
    if |events| > 0 {
      assert MidSession(events[0]);
      MidSessionKeepsSavedGains(Step(s, events[0]), events[1..]);
    }
  }

  /** Gain restoration: whatever happens between `startAutoTune` and
      `stopAutoTune` (test ticks, completion or failure, applying or clearing
      results, controller ticks), stopping restores exactly the gains the
      controller had before the start. */
  lemma StopRestoresGains(s: System, now: nat, events: seq<Event>)
    requires !IsAutoTuneActive(s.tuner)
    requires Runnable(StartAutoTune(s, now), events)
    requires forall i :: 0 <= i < |events| ==> MidSession(events[i])
    ensures Gains(StopAutoTune(Run(StartAutoTune(s, now), events)).pid) == Gains(s.pid)
  {
    MidSessionKeepsSavedGains(StartAutoTune(s, now), events);
  }

  /** Applying results in the middle of a relay test is not guarded by the
      firmware, and it can leave the controller outside the search range:
      here the tuned kp 0.6 is below kpStart 1.0 while the test runs on. */
  lemma ApplyDuringRelayTestLeavesRange()
    ensures var s := System(InitialTuner.(phase := RelayTest, currentTestKp := 1.0,
                                          results := Results(1.0, 1.0, 0.6, 1.2, 0.075, true)),
                            InitialPID.(kp := 1.0));
            && TestInvariant(s)
            && !TestInvariant(ApplyAutoTuneResults(s))
  {
  }
}
