# Self-balancing robot firmware (ESP32) — a Dafny model of its control core

The firmware drives a two-wheeled self-balancing robot from an ESP32 with an
MPU-6050 inertial sensor. This project models, as pure Dafny functions, the
parts of it that decide things:

- the balancing PID controller and its keyboard gain adjustment (`Balance`);
- the relay-feedback auto-tuner, a state machine that takes over the PID gains,
  searches for the ultimate gain and derives Ziegler–Nichols gains (`AutoTune`);
- the web server's text handling (`WebServer`): the form-body parser with its
  URL decoder (`UrlDecoding`), the `"key":"value"` field extraction of the JSON
  endpoints, the 1000-character serial log buffer, and the request-line split
  and routing;
- the motor command mapping from command words to H-bridge pin levels and PWM
  duties, each movement as the firmware's ordered sequence of pin and duty
  writes (`InputController`);
- the sensor word decoding, calibration averaging and unit scaling (`Gyro`);
- the rolling telemetry window of the browser plot (`Plotter`).

Three helper modules model the Arduino and C library behaviour the firmware
relies on: `ArduinoMath` (`constrain`, `map`, C truncating division,
float-to-int truncation, `int16_t` wrap-around), `ArduinoString`
(`String::indexOf`, `String::substring` with its swap and clamp rules and the
conversion of an `int` argument to `unsigned int`, `String(unsigned long)`),
and `Wrappers` (`Option`).

Floats are modelled as `real`; `millis()` is a parameter `now: nat` (no
wrap-around); the I2C transfers are a parameter of type
`Option<RawBlock>` (six bytes or nothing); the GPIO and LEDC writes become an
`Outputs` record; strings are `seq<char>`.

Where the code does something one might not expect, the model follows the
code:

- `applyAutoTuneResults` does not check the tuner state. It copies valid
  results into the controller even during a relay test.
  `AutoTune.ApplyDuringRelayTestLeavesRange` shows the consequence. The run
  lemmas allow that call. They state the full test invariant for runs
  without it, and the search range of the test kp for every run.
- A failed tuning run leaves earlier valid results valid.
- `balanceRobot` applies no dead band, filter, output clamp or tilt cut-off. It
  adds the PID output to the base speed and truncates to `int`.
- Calibration divides by 100 even when some transfers failed.

Contract preconditions and what they stand for:

- `Balance.UpdatePID` requires a clock strictly after the last update. A
  repeated timestamp makes the firmware divide by a zero `dt` in floating
  point.
- `AutoTune.UpdateAutoTune` requires `AutoTune.ClockOk`: during a relay test
  the clock is not before the segment start. On a tick that completes the
  test it is also after the last recorded oscillation, because the firmware
  divides by that interval.
- `gyro.cpp` takes the calibration offset off the unsigned 16-bit word, not
  off the signed reading. `Gyro.ReadGyro` and `Gyro.ReadAccel` do the same,
  through `Gyro.ReadAxisAsWritten`. `Gyro.ReadingDiscrepancy` says exactly
  where this differs from the evidently intended `Gyro.ReadAxis`.
- Every movement writes left FWD, left REV, right FWD, right REV in that
  order, so the pins pass through intermediate levels between two commands.
  `InputController.FirmwareOrderBothHigh` says exactly when one of those
  has both pins of a leg HIGH; the safety lemmas speak of the levels after
  each whole command.

## Model

| member | source | states |
|---|---|---|
| `ArduinoMath.ConstrainInt` | src/control/input_controller.cpp:87 | the clamped value lies in [lo, hi]; it is the input when the input is inside, lo when the input is below lo, and hi when the input is above hi (and not below lo) |
| `ArduinoMath.ConstrainReal` | src/self_balancing/balance.cpp:50 | the same for the float integral clamp |
| `ArduinoMath.CDiv` | src/control/input_controller.cpp:88 | `map`'s `long` division truncates toward zero: for each sign of dividend and divisor the quotient times the divisor lies within one divisor of the dividend, on the side of zero |
| `ArduinoMath.MapRange` | src/control/input_controller.cpp:88 | `map` sends inMin to outMin and inMax to outMax, and for rising input and output ranges and x ≥ inMin its result is outMin plus ⌊(x − inMin)(outMax − outMin)/(inMax − inMin)⌋ |
| `ArduinoMath.CDivExact` | src/control/input_controller.cpp:88 | dividing an exact multiple gives the multiplier |
| `ArduinoMath.TruncToInt` | src/self_balancing/balance.cpp:82-83 | the float-to-`int` conversion is the integer next to x toward zero (floor for x ≥ 0, ceiling below) |
| `ArduinoMath.ToInt16` | src/gyro/gyro.cpp:26-28 | storing into `int16_t` gives a value in [-32768, 32767] congruent to the input mod 2^16, and the identity on that range |
| `ArduinoString.IndexOfChar` | src/wifi/web_server.cpp:79 | `indexOf(c, from)` is -1 exactly when c does not occur at or after `from`; otherwise the first such position |
| `ArduinoString.IndexOfStr` | src/wifi/web_server.cpp:304 | the same for a substring |
| `ArduinoString.IndexOfCharAfterRun` | src/wifi/web_server.cpp:89 | after a run of text free of c, `indexOf` finds the c that ends the run |
| `ArduinoString.Substring` | src/wifi/web_server.cpp:315-316 | `substring(l, r)` is the slice when l ≤ r ≤ length, the tail when r runs past the end, and never longer than the string |
| `ArduinoString.Unsigned` | src/wifi/web_server.cpp:315-316 | an `int` passed where `unsigned int` is expected is kept when in range, and -1 becomes 2^32 − 1 |
| `ArduinoString.NatToDecimal` | src/wifi/web_server.cpp:33 | `String(millis())` is a non-empty digit string without a leading zero |
| `ArduinoString.DecimalRoundTrip` | src/wifi/web_server.cpp:33 | reading the digits of `String(n)` back gives n |
| `Balance.UpdatePID` | src/self_balancing/balance.cpp:38-62 | the integral is the old integral plus error·dt when that is within ±100, otherwise clamped to the nearer bound, and always within ±100; the error and the time are remembered; gains and base speed are untouched; with ki = kd = 0 the output is kp·error, with kp = kd = 0 it is ki times the new integral, with kp = ki = 0 it is kd times (error − previous error)/dt |
| `Balance.OutputIsSumOfTerms` | src/self_balancing/balance.cpp:43-59 | the output is the sum of what a P-only, an I-only and a D-only controller with the same memory would output |
| `Balance.RunPID` | src/self_balancing/balance.cpp:38-62 | a run of control ticks gives one output per tick |
| `Balance.RunKeepsIntegralBounded` | src/self_balancing/balance.cpp:48-50 | after any non-empty run of ticks the integral is within ±100 (anti-windup), and gains and base speed are those of the start |
| `Balance.ProportionalRun` | src/self_balancing/balance.cpp:45-59 | with ki = kd = 0 every output of a run is kp times that tick's error |
| `Balance.BalanceRobot` | src/self_balancing/balance.cpp:75-83 | both wheels get the same speed, which is base speed + PID output truncated toward zero; the controller is updated with error = angle − target; at the target with a fresh controller both wheels get the base speed |
| `Balance.AdjustPIDGains` | src/self_balancing/balance.cpp:89-137 | 'w'/'s' move kp by +0.1/−0.1, 'e'/'d' ki by ±0.01, 'r'/'f' kd by ±0.01, 'q' raises the base speed by 5 and 'a' lowers it by 5 but not below 0 (to 0 from below 5); each key changes only its own setting; any other key changes nothing; the controller memory is untouched |
| `Balance.AdjustKeysUndo` | src/self_balancing/balance.cpp:94-127 | w then s, e then d, r then f restore the controller; q then a does too from a non-negative base speed |
| `Balance.KeysKeepBaseSpeedAndMemory` | src/self_balancing/balance.cpp:118-127 | over any key sequence a non-negative base speed stays non-negative and the integral, last error and time are kept |
| `AutoTune.InitAutoTune` | src/self_balancing/auto_tune.cpp:20-23 | idle with the cleared (zeroed, invalid) results, every other tuner field and the controller untouched |
| `AutoTune.IsAutoTuneActive` | src/self_balancing/auto_tune.cpp:158-160 | active exactly when the phase is not idle |
| `AutoTune.ActivityTransitions` | src/self_balancing/auto_tune.cpp:26-68 | start makes an idle tuner active and leaves an active one active; stop and init leave it idle |
| `AutoTune.ResetAutoTuneResults` | src/self_balancing/auto_tune.cpp:180-187 | results become the zeroed, invalid results; every other tuner field and the controller unchanged |
| `AutoTune.StartAutoTune` | src/self_balancing/auto_tune.cpp:26-53 | the phase changes exactly when the tuner is idle (not active); then the gains are saved, the relay test starts at kpStart, increasing, with a zero oscillation count and max/min reset to −1000/1000, the controller runs P-only at kpStart with cleared memory, and earlier results and the parameters are kept; an active tuner is left alone |
| `AutoTune.StopAutoTune` | src/self_balancing/auto_tune.cpp:56-68 | the phase changes exactly when the tuner is active (test running, complete or failed); then the saved gains return, integral and last error are zeroed and the tuner is idle; an idle tuner is left alone |
| `AutoTune.ApplyAutoTuneResults` | src/self_balancing/auto_tune.cpp:163-177 | with valid results the tuned gains enter the controller and its memory is zeroed; otherwise nothing changes; the tuner itself never changes |
| `AutoTune.DetectCrossing` | src/self_balancing/auto_tune.cpp:138-154 | a sign change of more than 0.5° since the previous angle counts one oscillation and stamps the time; otherwise the count and stamp are kept; the previous angle always becomes the current one; a crossing that brings the count to the reversal threshold turns the search to decreasing; no field other than the count, the stamp, the direction and the crossing memory changes |
| `AutoTune.UpdateAutoTune` | src/self_balancing/auto_tune.cpp:71-155 | outside a relay test nothing changes; the test completes exactly when enough oscillations of enough amplitude are seen, with Ku = the test kp, Tu from the last oscillation interval and Kp = 0.6Ku, Ki = 1.2Ku/Tu, Kd = 0.075KuTu; it fails exactly when the segment expired and the next kp leaves the range, leaving the controller as it was; an expired segment that does not fail moves controller and tuner to the next test kp, restarts the segment at now and resets max/min and the count (to at most the crossing of this tick); a tick that completes changes only max/min, the results and the phase, and one that fails only max/min, the test kp and the phase, so neither touches the count, the stamp, the direction, the segment start or the crossing memory; an unexpired tick keeps kp and segment and tracks the running max and min; on every tick that stays in the test the count (from 0 after an expired segment) gains one exactly when the angle crosses (`Crosses`), which also stamps the time, may end the increasing search and records the new sign, while otherwise only the previous angle is recorded; only kp of the controller can change; the search never turns back to increasing; saved gains and parameters never change |
| `AutoTune.StepKeepsInvariant` | src/self_balancing/auto_tune.cpp:26-177 | every entry point and control tick keeps the test invariant (never `Calculating`; during a relay test kpStart ≤ test kp ≤ maxKp with the controller at the test kp and ki = kd = 0), except applying valid results during a relay test; a kp written by start or update lies in [kpStart, maxKp] |
| `AutoTune.RunKeepsInvariant` | src/self_balancing/auto_tune.cpp:108-136 | the invariant holds after any run of calls that does not apply valid results during a relay test |
| `AutoTune.RunKeepsTunerRange` | src/self_balancing/auto_tune.cpp:108-136 | over every run, applies during a test included, the tuner is never `Calculating` and its test kp stays in [kpStart, maxKp] during a relay test |
| `AutoTune.InitialStateSatisfiesInvariant` | src/self_balancing/auto_tune.cpp:6-17 | the power-on state satisfies the invariant |
| `AutoTune.MidSessionKeepsSavedGains` | src/self_balancing/auto_tune.cpp:30-32 | any run of updates, ticks, resets and applies, including an apply during a relay test, leaves the tuner active or idle as it was and the saved gains as they were |
| `AutoTune.StopRestoresGains` | src/self_balancing/auto_tune.cpp:60-64 | start from idle, any run of such calls (an apply during the test included), then stop: the controller gets back exactly the gains it had before the start |
| `AutoTune.ApplyDuringRelayTestLeavesRange` | src/self_balancing/auto_tune.cpp:163-177 | applying valid results in the middle of a test breaks the test invariant (the tuned kp falls below kpStart) |
| `UrlDecoding.Strtol16` | src/wifi/web_server.cpp:61 | `strtol(hex, NULL, 16)` on two characters: two hex digits give 16·h + l; a hex digit followed by a non-digit gives the first digit's value; a leading white-space character or '+' before a digit gives that digit, a '-' gives its negation; no digit gives 0; a first character that is neither a digit, white space nor a sign gives 0; the value lies in −15..255 |
| `UrlDecoding.EscapeByte` | src/wifi/web_server.cpp:61 | the `(char)` of that value is a byte, and for two hex digits it is their value |
| `UrlDecoding.UrlDecode` | src/wifi/web_server.cpp:53-70 | the decoded text is never longer than the input |
| `UrlDecoding.UrlDecodeLoop` | src/wifi/web_server.cpp:53-70 | the index loop with its skip of two characters after '%' computes the recursive definition |
| `UrlDecoding.UrlDecodeCases` | src/wifi/web_server.cpp:56-67 | '+' becomes a space, '%' with two more characters becomes their byte, a '%' too near the end is dropped, any other character is kept |
| `UrlDecoding.PlainTextUnchanged` | src/wifi/web_server.cpp:65-66 | text without '+' or '%' decodes to itself |
| `UrlDecoding.DecodeUndoesFormEncode` | src/wifi/web_server.cpp:53-70 | decoding a form-encoded byte string gives it back |
| `WebServer.PiecesHaveNoAmp` | src/wifi/web_server.cpp:78-87 | the pieces the scan cuts between '&' separators contain no '&' |
| `WebServer.JoinUndoesSplit` | src/wifi/web_server.cpp:78-104 | joining the pieces with '&' gives the body back: the split loses nothing |
| `WebServer.ApplyPairField` | src/wifi/web_server.cpp:89-99 | a piece changes the ssid or password field exactly when it has '=' and that key, and then to its decoded value |
| `WebServer.ApplyPairFields` | src/wifi/web_server.cpp:89-99 | the ssid becomes the decoded value exactly when the piece's key is "ssid", the password exactly when it is "password"; a piece without '=' or with another key changes neither |
| `WebServer.MissingKeyIsEmpty` | src/wifi/web_server.cpp:74-75 | a field no piece names stays empty |
| `WebServer.LastPairWins` | src/wifi/web_server.cpp:81-104 | a field is the decoded value of the last piece with its key |
| `WebServer.TakePair` | src/wifi/web_server.cpp:89-99 | the loop body with `substring` sets the ssid to the decoded value exactly when the piece has '=' and the key "ssid", the password likewise for "password", and otherwise keeps both, which is the reference step `ApplyPair` |
| `WebServer.ParseFormData` | src/wifi/web_server.cpp:73-107 | the scan loop yields the fields of the split-and-fold reference, and reports success exactly when both are non-empty |
| `WebServer.FormRoundTrip` | src/wifi/web_server.cpp:73-107 | the body `ssid=<encoded>&password=<encoded>` parses back to the two byte strings |
| `WebServer.QuotedField` | src/wifi/web_server.cpp:411-415 | the extracted value has no '"'; when non-empty it sits right after the first `"key":"` and is followed by '"'; and it is non-empty whenever an opener is found, the character after it is not '"' and a '"' follows later |
| `WebServer.QuotedFieldAt` | src/wifi/web_server.cpp:411-415 | when the first opener is followed by a non-empty quote-free run and a '"', the field is that run |
| `WebServer.QuotedFieldMissing` | src/wifi/web_server.cpp:411-415 | a body without the opener gives the empty field |
| `WebServer.QuotedFieldRoundTrip` | src/wifi/web_server.cpp:411-421 | `"key":"value"` after quote-free text reads back as value |
| `WebServer.SaveWiFiRoundTrip` | src/wifi/web_server.cpp:406-437 | `handleSaveWiFi` (`HandleSaveWiFi`) saves the settings page's body `{"ssid":"s","password":"p"}` as exactly (s, p) when s is non-empty and answers 400 otherwise |
| `WebServer.JsonPairFields` | src/wifi/web_server.cpp:411-421 | both members of `{"k1":"a","k2":"b"}` read back, for keys of different lengths |
| `WebServer.ControlRoundTrip` | src/wifi/web_server.cpp:502-517 | `handleControl` (`ControlRequest`) reads exactly (c, v) from the control page's body `{"command":"c","value":"v"}` |
| `WebServer.CommandOnlyRoundTrip` | src/wifi/web_server.cpp:502-517 | `handleControl` (`ControlRequest`) reads c and an empty value from the body `{"command":"c"}` |
| `WebServer.AddToSerialBuffer` | src/wifi/web_server.cpp:31-42 | the buffer becomes the last min(n, 1000) characters of old buffer + `[millis] message\n`, so it never exceeds 1000 and always ends with the new line when the line fits |
| `WebServer.SerialBufferUntrimmedWhenRoom` | src/wifi/web_server.cpp:36-42 | with room left nothing is trimmed |
| `WebServer.RequestMethod` | src/wifi/web_server.cpp:315 | the method is a prefix of the line without a space, ended by a space or the end of the line |
| `WebServer.RequestPath` | src/wifi/web_server.cpp:316 | the path is the space-free run after the first space (from the start when there is none), ended by a space or the end |
| `WebServer.SplitAtSpaces` | src/wifi/web_server.cpp:315-316 | a line whose first two space-ended runs are m and p has method m and path p |
| `WebServer.RequestLineSplit` | src/wifi/web_server.cpp:315-316 | `method path rest` splits into its method and path |
| `WebServer.LoneWordRequest` | src/wifi/web_server.cpp:315-316 | a line without a space is its own method and path (the -1 of `indexOf` becomes the largest unsigned bound) |
| `WebServer.RouteRequest` | src/wifi/web_server.cpp:303-349 | requests naming `/events` or `/clear-console` are skipped exactly; every other request follows the routing table `RoutedBy`: GET `/` or `/index.html` to the page, `/script.js` to the script, `/status` to the status; POST `/save-wifi`, `/scan-networks` and `/control` to their handlers; any other method gets no answer; everything else a 404 |
| `WebServer.RouteOfRequestLine` | src/wifi/web_server.cpp:315-349 | a line `method path rest` that names neither event stream is routed by that method and path through the table |
| `InputController.SetSpeed` | src/control/input_controller.cpp:86-96 | the speed becomes the input clamped to 0–100 and the LED gets its duty; the motors are untouched |
| `InputController.DutyScaling` | src/control/input_controller.cpp:88 | the duty of a speed in 0–100 lies in 0–255, maps 0 to 0 and 100 to 255, never decreases with the speed and is ⌊speed·255/100⌋ |
| `InputController.MoveForward` | src/control/input_controller.cpp:98-111 | after its six writes both motors run forward at the duty of the current speed; speed and LED unchanged |
| `InputController.MoveBackward` | src/control/input_controller.cpp:113-126 | both motors in reverse at the same duty |
| `InputController.TurnLeft` | src/control/input_controller.cpp:128-141 | left motor in reverse, right forward, same duty |
| `InputController.TurnRight` | src/control/input_controller.cpp:143-156 | left forward, right in reverse, same duty |
| `InputController.StopMovement` | src/control/input_controller.cpp:158-169 | every direction pin low and both motor duties 0 |
| `InputController.DirectionSymmetry` | src/control/input_controller.cpp:103-151 | backward is forward with every direction pin inverted; right is left with the motors swapped |
| `InputController.WordOf` | src/control/input_controller.cpp:61-80 | each of the six command words is recognised exactly when the string equals it, case-sensitively; any other string is an unknown word |
| `InputController.HandleRobotCommand` | src/control/input_controller.cpp:51-83 | the levels a command leaves have no leg with both pins HIGH if the levels before it had none (the levels on the way are `FirmwareOrderBothHigh`'s); only "speed" changes the speed; an unknown word changes nothing |
| `InputController.CommandKeepsSafe` | src/control/input_controller.cpp:61-82 | after one whole command a safe controller is still safe: no leg with both pins HIGH, speed in 0–100, every duty in 0–255 |
| `InputController.CommandsAreSafe` | src/control/input_controller.cpp:98-168 | from a safe state the levels after each whole command of any sequence are safe |
| `InputController.InitialIsSafe` | src/control/input_controller.cpp:24-45 | power-on is safe, so the levels after each whole command of any sequence are |
| `InputController.FirmwareOrderBothHigh` | src/control/input_controller.cpp:102-168 | in the firmware's write order a movement from levels without a both-HIGH leg passes through one exactly when it raises the FWD pin of a leg whose REV pin is HIGH |
| `InputController.ReversalsPassThroughBothHigh` | src/control/input_controller.cpp:103-151 | forward, left and right after backward, forward and right after left, and forward and left after right each pass through a leg with both pins HIGH |
| `InputController.BreakBeforeMakeNeverBothHigh` | src/control/input_controller.cpp:102-168 | writing on each leg the pin that goes LOW first never passes through a both-HIGH leg, and ends at the same outputs as the firmware's order |
| `Gyro.Word` | src/gyro/gyro.cpp:26 | `hi << 8` OR-ed with `lo` is the 16-bit word whose high and low bytes are hi and lo |
| `Gyro.Signed` | src/gyro/gyro.cpp:26-28 | the word stored in `int16_t` is the word when the sign bit is clear and the word − 65536 when it is set |
| `Gyro.DecodeUndoesEncode` | src/gyro/gyro.cpp:26-28 | decoding the two bytes the sensor sends for v gives v |
| `Gyro.EncodeUndoesDecode` | src/gyro/gyro.cpp:56-58 | the bytes of a decoded value are the bytes read |
| `Gyro.GyroOffsets` | src/gyro/gyro.cpp:36-38 | each gyro offset lies within the int16 range |
| `Gyro.AccelOffsets` | src/gyro/gyro.cpp:67-69 | the accel offsets are the same means with 16384 (1 g) taken off X |
| `Gyro.SumBounded` | src/gyro/gyro.cpp:29-31 | a sum of k samples lies within k times the int16 bounds |
| `Gyro.SteadyCalibration` | src/gyro/gyro.cpp:15-38 | 100 identical samples give exactly their values as offsets (and one g less on accel X) |
| `Gyro.SilentCalibration` | src/gyro/gyro.cpp:25-38 | when every transfer fails the gyro offsets are 0 and the accel offsets (-16384, 0, 0) |
| `Gyro.CalibrateGyro` | src/gyro/gyro.cpp:14-41 | the sampling loop computes the per-axis sum over the samples divided by 100, failed transfers counting in the divisor |
| `Gyro.ReadAxisAsWritten` | src/gyro/gyro.cpp:82-84 | the firmware's axis is in the int16 range and congruent modulo 2^16 to the truncation toward zero of (unsigned word − offset) |
| `Gyro.ReadAxis` | src/gyro/gyro.cpp:82-84 | the corrected axis is in the int16 range and, when (signed reading − offset) is, it is that difference truncated toward zero |
| `Gyro.ReadingDiscrepancy` | src/gyro/gyro.cpp:82-84 | the firmware's value is one below the corrected one (modulo the 16-bit wrap) exactly for a negative reading whose calibrated difference is negative, above −65536 and not whole; elsewhere the two are equal |
| `Gyro.WholeOffsetAgrees` | src/gyro/gyro.cpp:82-84 | with a whole-number offset the firmware's unsigned-word computation equals the intended signed one |
| `Gyro.NonNegativeReadingAgrees` | src/gyro/gyro.cpp:100-102 | for a reading with the sign bit clear the two agree for any offset |
| `Gyro.NegativeReadingDisagrees` | src/gyro/gyro.cpp:82 | the bytes FF FF (reading -1) with offset 0.5 give -2 as written and -1 as intended |
| `Gyro.ReadGyro` | src/gyro/gyro.cpp:75-90 | a value exactly when the transfer delivered; each axis times 131 is `ReadAxisAsWritten` of its bytes and offset, and lies within ±32768/131 deg/s |
| `Gyro.ReadAccel` | src/gyro/gyro.cpp:93-108 | a value exactly when the transfer delivered; each axis times 16384 is `ReadAxisAsWritten` of its bytes and offset, and lies within ±2 g |
| `Gyro.UncalibratedRead` | src/gyro/gyro.cpp:85-105 | with zero offsets every axis of both reads is its raw signed value over the scale |
| `Gyro.UnitScales` | src/gyro/gyro.cpp:85 | raw 131 reads 1 deg/s, raw -131 reads -1 deg/s, raw 16384 reads 1 g |
| `Gyro.CalibratedStillRead` | src/gyro/gyro.cpp:82-105 | a sensor reading what it read throughout calibration reads zero rate and (1 g, 0, 0) |
| `Plotter.Shift` | data/plotter.js:176-178 | `shift` drops the first element and is a no-op on an empty array |
| `Plotter.UpdateAnglePlotAsWritten` | data/plotter.js:170-189 | the three arrays stay equal in length, never exceed 51 entries, and end with the new point |
| `Plotter.UpdateAnglePlot` | data/plotter.js:174-183 | the corrected update keeps the arrays aligned, at most 50 long, ending with the new point |
| `Plotter.SlideStep` | data/plotter.js:175-183 | shifting exactly when full, then pushing, turns the window of the newest n points into the window of the newest n points with the new one added |
| `Plotter.RunAsWrittenKeepsNewest` | data/plotter.js:175-183 | any run of updates as written keeps exactly the newest 51 points, in order |
| `Plotter.RunKeepsNewest` | data/plotter.js:175-183 | any run of corrected updates keeps exactly the newest 50 points, in order |
| `Plotter.PlotShowsNewest51` | data/plotter.js:4-8 | from the page's empty arrays the plot shows the newest 51 points, and 51 once that many arrived |
| `Plotter.PlotShowsNewest50` | data/plotter.js:174-183 | the corrected plot shows the newest 50 points and never more |
| `Plotter.ShiftDropsOldest` | data/plotter.js:175-179 | on a full window exactly the oldest point of each array is dropped and the order is kept |

## Left out

- Network, storage and UI I/O are not modelled: sockets, header reading, SSE, HTML, `serveFile`, `handleStatus`, scans, WiFi connection and failover, Preferences and LittleFS, the OLED, `data/script.js`, and the canvas drawing in `data/plotter.js`.
- The serial console output (`Serial.print…`) is not modelled. It changes no state the model tracks.
- `initBalance` is not modelled: it calls `atan2`, which reals cannot express.
- `calculateAngle` and `setMotorSpeeds` are not modelled. No file here defines them, so `balanceRobot` ends at the two wheel speeds.
- `src/self_balancing/balance.cpp` lines 1-17 are not modelled: the text there is corrupted.
- `TARGET_ANGLE` is not modelled: `balanceRobot` receives its target as an argument.
- `settleTime` has no behaviour to model: it is a tuner parameter the code never reads.
- Float rounding is not modelled. The model computes exactly, so no PID term, ZN gain or calibration mean carries a rounding error.
- Float division by a zero `dt` is not modelled. A repeated `millis()` gives an infinite or NaN derivative, which reals cannot represent.
- `millis()` wrap-around after about 49 days is not modelled.
- Concurrency is not modelled. The firmware is single-threaded.
- The order of the two `Wire.read()` calls in `hi << 8 | lo` is not modelled. C++ leaves it unsequenced; the model takes the left call as the high byte.
- A failed transfer in `readGyro`/`readAccel` returns an uninitialised structure. The model returns no value instead.
- In `gyro.cpp` the float-to-`int16_t` conversion of a difference outside the int16 range is undefined in C++. `Gyro.ReadAxisAsWritten` models it as truncation then 16-bit wrap-around.
- `String::toInt` is not modelled: `InputController.HandleRobotCommand` takes the speed as an already converted `int`.
- `handleSaveWiFi` copies the credentials into `char ssid[32]` and `char password[64]`. That copy and its truncation are not modelled.
- NUL characters inside Arduino `String`s are not modelled. The model treats strings as plain sequences.
- `InputController.CommandsAreSafe`, `InputController.CommandKeepsSafe`, `InputController.InitialIsSafe`: safety is promised for the levels after each whole command, not for the levels between its writes. The firmware's order does pass through a leg with both pins HIGH (`FirmwareOrderBothHigh`, and see Findings).
- The time between two writes is not modelled: the previous command's duty stays applied while the pins change, but the model has no notion of how long a level lasts.
- `InputController.HandleRobotCommand`: its own contract states only the safety, speed and unknown-word facts. The per-command pin mapping is stated by `MoveForward` … `StopMovement`, and the speed and duty ranges by `CommandKeepsSafe`.
- `Balance.RunPID`: its own contract states only one output per tick. The anti-windup bound is stated by `RunKeepsIntegralBounded`, and the outputs by `ProportionalRun`.
- `AutoTune.UpdateAutoTune`: a tick that completes the test at the same millisecond as the last oscillation is not modelled. The firmware divides by a zero period there, which reals cannot represent, so `ClockOk` excludes it.
- `AutoTune.RunKeepsInvariant`: the full test invariant is promised only for runs without an apply of valid results during a relay test. The firmware breaks it there (`ApplyDuringRelayTestLeavesRange`); `RunKeepsTunerRange` covers every run.
- JSON escaping is not modelled: the round trips of `handleSaveWiFi` and `handleControl` put the raw values into the body and require them to be free of '"'. `JSON.stringify` writes a value raw only when it holds no '"', no `\` and no control character.
- `UrlDecoding.UrlDecode`: its own contract states only the length bound. The behaviour is stated by `UrlDecodeCases`, and the round trip by `DecodeUndoesFormEncode`.

## Findings

| source | as written | input that shows it | evidently intended | confidence | as-written member | corrected member |
|---|---|---|---|---|---|---|
| src/gyro/gyro.cpp:82-84 | the float offset is subtracted from the unsigned word `hi << 8` OR `lo` (0–65535) before the result is stored in `int16_t`, so a negative reading is truncated as a large positive number and only then wrapped | bytes FF FF (reading -1), offset 0.5: 65534.5 truncates to 65534, which wraps to -2 | subtract the offset from the signed reading: trunc(-1 - 0.5) = -1; exactly the negative readings whose calibrated difference is negative, above -65536 and not a whole number come out one unit low | medium, not executed | `Gyro.ReadingDiscrepancy` | `Gyro.ReadAxis` |
| src/control/input_controller.cpp:103-151 | each movement writes a leg's FWD pin before its REV pin, so turning a leg from reverse to forward raises FWD while REV is still HIGH, with the previous duty still applied | `moveForward` after `moveBackward`: after line 103 the left leg has FWD = REV = HIGH | break before make: write the pin that goes LOW first, so no leg ever has both pins HIGH (on drivers where that shorts the supply; on others it is a brief brake) | low, not executed | `InputController.FirmwareOrderBothHigh` | `InputController.BreakBeforeMakeNeverBothHigh` |
| data/plotter.js:174-183 | the guard `labels.length > 50` shifts only once 51 points are held, so after the push the plot holds 51 points | 51 updates from the empty arrays leave 51 points | "Keep only last 50 data points": shift at 50 | medium, not executed | `Plotter.PlotShowsNewest51` | `Plotter.PlotShowsNewest50` |
