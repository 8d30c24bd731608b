# DOOMBLADE actuator controller, modelled in Dafny

DOOMBLADE drives a single linear actuator. A Linux host talks to a moteus
motor controller through an fdcanusb CAN bridge. The host writes text lines
such as `can send 8001 01000a0c0220…\n`, in which floats travel as hex
digits. It reads limit, activate and safety switches over GPIO. A polling
loop moves the blade through homing, extension and sheathing, guarded by a
safety switch.

The model has four parts.

- **Wire codec** (`HexDigits`, `FloatConverter`, `CommandGenerator`, `MyController`).
  - A float is its IEEE 754 binary32 bit pattern (`Bits32`), as defined in section 3.4 of IEEE 754-2019.
  - Its four little-endian memory bytes become eight lower-case hex characters.
  - The register header `01 00 0a 0c 02 20` is encoded the same way.
  - Each frame builder is a string function. The reply decoder is a function on the reply buffer: it reads the 8-character groups at offsets 18, 26 and 34, reverses the byte pairs of each group, parses the hex, and takes the bits as the float.
  - The round trips `decode(encode(x)) == x` are proved for floats, for byte strings and for whole replies.
- **Motion-phase engine** (`Rig`, `PositionPhases`, `PositionManager`, `MotionPhases`, `MotionManager`).
  - The controller is a class that logs the commands sent to it. It serves readings `(position, velocity, torque)` from an oracle `nat -> Reading`, with a cursor.
  - A switch is a class that serves oracle integers: 0 pressed, 1 released, -1 line unavailable.
  - Each phase is modelled twice. The first is a pure function over the rig's observable state `World` (commands sent, replies and switch values consumed, torque log). The second is the imperative method of the manager classes, whose `ensures` equates the new state with that function applied to the old state. The lemmas about the functions state what the phases promise.
- **Velocity curve generator** (`VelocityCurveGenerator`).
  - `tanh` is a parameter of the model.
  - Sample `i` is `start + tanh(2 * i / numPoints) * (end - start)`, for `numPoints + 1` samples.
- **Operational state machine** (`PositionControl`).
  - `Step` holds the `MotorState` transitions of one loop iteration, and `Trace` runs them over a sequence of iterations.
  - `Iterate` is one iteration as a function of the control program's rig: the manager's `World` plus the activate and safety read counts. It reads the safety switch first, then does the work of the state acted in: a one-tick hold and an activate read, a home read, or the composed motion `HomeRun` / `ExtendRun` / `SheatheRun`. The motion runs with the manager's `Config` (top speed, cruise end positions, ramp lengths); the control program's own values are `Program`. It returns the new machine, the values read and whether a phase ran out of its bound.
  - `Iteration` is the loop body of `main` over the real phase methods. Its `ensures` equates its new rig, state, positions and read values with `Iterate`. The lemmas about `Iterate` show that the recorded inputs are the values read and that a safety read of 0 stops all motion.
  - `ControlLoop` sends Stop and Rezero(500), builds the manager with `Program`, then runs the loop. It is proved equal to `Run` under `Program` from `Initial` at 500/500: the values read, the commands sent and every read count. The states it visits are `Trace(Initial, inputs)` of those values.

The following reads of the code differ from a plain reading of the
repository's design notes. The model follows the code.

- Leaving lockout. The lockout branch reads the safety switch a second time. The state becomes `Initial` when that read returns 0, the same value that caused the lockout. A read of -1 (line unavailable) counts as safe, because only 0 converts to `false`.
- Extending. It re-zeroes the position at 500 before the forward motion, not after it.
- `ExtendError`. No branch assigns it, so no run reaches it.
- Homing backoff. `!extend.readValue() == 0` holds exactly when the read is nonzero, so the 100-tick backoff runs only when the extend switch is *not* pressed.
- Forward deceleration. It subtracts a positive rate from a negative velocity, so its `velocity >= 0` exit can never fire when `maxSpeed > 0`.
- `holdPositionNanDuration` sends one tick whatever its duration.
- Malformed replies. The code does not recover from them: it always uses the three decoded floats. The model's decoder returns an explicit error for a short or non-hex buffer, and the phases take readings from the oracle.

## Model

| member | source | states |
|---|---|---|
| FloatConverter.ToHexDigit | FloatConverter.h:30-32 | a nibble below 16 maps to a lower-case hex digit with that value: below 10 to '0'+n, from 10 to 15 to 'a'+(n-10) |
| FloatConverter.MemoryBytes | FloatConverter.h:17-18 | four bytes whose little-endian weighted sum is the float's bit pattern |
| FloatConverter.MemoryBytesRoundTrip | FloatConverter.h:17-18 | copying the bytes back into a float gives back the same bit pattern |
| FloatConverter.HexOfBytesAt | FloatConverter.h:18-23 | characters 2i and 2i+1 are the high and the low nibble of byte i |
| FloatConverter.HexOfBytesIsLowerHex | FloatConverter.h:21-32 | two characters per byte, every one of them in '0'..'9' or 'a'..'f' |
| FloatConverter.ByteHexRoundTrip | FloatConverter.h:21-32 | hi*16+lo of one byte's two characters is that byte |
| FloatConverter.HexOfBytesRoundTrip | FloatConverter.h:18-24 | reading character pairs back as hi*16+lo recovers every byte exactly |
| FloatConverter.FloatHexRoundTrip | FloatConverter.h:13-26 | the 8 hex characters of a float decode back to its exact bit pattern, NaN payloads included |
| FloatConverter.OneEncoding | FloatConverter.h:18-24 | 1.0f (bytes 00 00 80 3f) encodes as "0000803f" |
| FloatConverter.QuietNaNEncoding | FloatConverter.h:18-24 | the quiet NaN is a NaN and encodes as "0000c07f" |
| FloatConverter.HexOfFloatLayout | FloatConverter.h:18-24 | 8 characters; 2i and 2i+1 are the nibbles of memory byte i, in memory order |
| FloatConverter.ConvertFloat | FloatConverter.h:13-26 | the loop pushes the high then the low nibble of each memory byte in order: 8 characters, the float's encoding |
| CommandGenerator.NibbleToHexChar | CommandGenerator.h:84-90 | agrees with the float converter's digit rule on every nibble |
| CommandGenerator.NibbleToHexCharInjective | CommandGenerator.h:84-90 | distinct nibbles 0..15 give distinct characters |
| CommandGenerator.InitialCommandDataLayout | CommandGenerator.h:18-68 | the data is 28 characters: "01000a0c0220" followed by each float's 8 characters, from which the float is recovered |
| CommandGenerator.HeaderText | CommandGenerator.h:18-28 | bytes 01 00 0A 0c 02 20 encode as "01000a0c0220" |
| CommandGenerator.CommandGenerator.constructor | CommandGenerator.h:13-50 | the data is header text ++ float1 ++ float2; prefix and full command stay empty |
| CommandGenerator.CommandGenerator.GetCommand | CommandGenerator.h:52-55 | returns the command data |
| CommandGenerator.CommandGenerator.AppendFloatsToCommandData | CommandGenerator.h:62-68 | appends the two floats' encodings, in argument order |
| CommandGenerator.CommandGenerator.BuildAndStoreCommand | CommandGenerator.h:70-73 | the full command becomes prefix ++ data |
| CommandGenerator.CommandGenerator.ConvertToASCII | CommandGenerator.h:75-82 | exactly 2 characters per byte, high nibble first, bytes in input order |
| MyController.WriteFrameLayout | MyController.h:103-113 | 49 characters: "can send 8001 01000a0c0220", float1 at 26, float2 at 34, then "1c0301\n" |
| MyController.WriteOnlyFrameLayout | MyController.h:117-132 | 41 characters: "can send 01 01000a0c0220", float1 at 24, float2 at 32, then "\n" |
| MyController.RezeroFrameLayout | MyController.h:145-156 | 29 characters: "can send 0001 0db102", the position at 20, then "\n" |
| MyController.CustomIsRezeroToThree | MyController.h:135-156 | the custom frame is the rezero frame for 3.0 |
| MyController.WriteFrameCarriesGeneratorData | MyController.h:103-113 | the write frame is its head ++ the command generator's data ++ the query tail |
| MyController.NaNAndOneWriteFrame | MyController.h:103-113 | the frame for (NaN, 1.0) is the literal line written out |
| MyController.Reverse | MyController.h:187-191 | same length, element i is element n-1-i of the input |
| MyController.HexStringToFloat | MyController.h:167-175 | succeeds exactly on non-empty all-hex text; the value is the parsed number, taken as bits without conversion |
| MyController.DecodeReply | MyController.h:178-200 | three values on success; fails as a short reply exactly when the buffer has fewer than 42 characters |
| MyController.ReversedPartsText | MyController.h:185-192 | the reversed 2-character parts of a group are its byte pairs in reverse order |
| MyController.GroupRoundTrip | MyController.h:167-192 | a group produced by the float encoder decodes to that float's bits |
| MyController.DecodeReplyRoundTrip | MyController.h:178-200 | a reply carrying three encoded floats at 18, 26 and 34 decodes to exactly those three |
| MyController.ConvertToFloat | MyController.h:185-192 | the loop over a group computes GroupValue |
| MyController.ReadFloats | MyController.h:194-197 | the three calls at offsets 18, 26 and 34 compute DecodeReply |
| MyController.CanId | MyController.h:91-164 | CAN id 8001, which asks for a reply, exactly for the write and the query frames |
| MyController.FrameShape | MyController.h:91-164 | every frame starts with its fixed head and is longer than it |
| MyController.FrameEnd | MyController.h:91-164 | every frame has at least 21 characters and ends in a newline |
| MyController.Controller.SendStopCommand | MyController.h:91-94 | logs Stop; no reply consumed |
| MyController.Controller.SendBrakeCommand | MyController.h:97-100 | logs Brake; no reply consumed |
| MyController.Controller.SendWriteCommand | MyController.h:103-113 | logs Write(float1, float2) |
| MyController.Controller.SendWriteOnlyCommand | MyController.h:117-132 | logs WriteOnly(float1, float2); the drain read is not a sample |
| MyController.Controller.SendCustomCommand | MyController.h:135-142 | logs Custom |
| MyController.Controller.SendRezeroCommand | MyController.h:145-156 | logs Rezero(position) |
| MyController.Controller.SendQueryCommand | MyController.h:159-164 | logs Query |
| MyController.Controller.SendReadCommand | MyController.h:178-200 | returns the next reply and advances the reply cursor by one; sends nothing |
| MyGpio.Gpio.ReadValue | MyGpio.h:49-52 | returns the next switch value and advances the read cursor |
| Rig.RepeatSnoc | MotionManager.h:50-58 | n ticks of one command (n copies sent, n replies consumed, their torques logged or not) are n single ticks in a row: none change nothing, one more is a Tick after the rest |
| Rig.HoldTicks | MotionManager.h:51 | the tick count is duration*1e6/1025 truncated, and 0 for a non-positive duration |
| Rig.HalfSecondHold | position_control_test.cpp:98 | a half-second hold is 487 ticks |
| Rig.RepeatGrows | MotionManager.h:46 | ticks only append commands and torques and only advance cursors |
| PositionPhases.LastInWindowGate | PositionManager.h:93-96 | the current position is unchanged or is the position of an in-window reading |
| PositionPhases.LastInWindowUnchanged | PositionManager.h:93-96 | with no in-window reading, the current position is left as it was |
| PositionPhases.LastInWindowIsLast | PositionManager.h:93-96 | otherwise it is the last in-window reading |
| PositionPhases.WindowTorquesCount | PositionManager.h:239-241 | at most one torque per reading: none with none in window, all with all in window |
| PositionPhases.AccelPositions | PositionManager.h:74-90 | steps+1 positions whose entry 0 is the current position |
| PositionPhases.AccelPositionsShape | PositionManager.h:74-90 | each entry is the previous plus i*perStep; entry i is start + perStep*i(i+1)/2 |
| PositionPhases.AccelPositionsPrefix | PositionManager.h:74-90 | a shorter ramp is a prefix of a longer one |
| PositionPhases.AccelPerStep | PositionManager.h:78 | steps times the per-step change is -maxSpeed forward and +maxSpeed reverse |
| PositionPhases.SweepWorld | PositionManager.h:88-96 | a sweep sends one write per target, consumes one reply each, and logs in-window torques or nothing |
| PositionPhases.SweepCurrent | PositionManager.h:93-96 | a sweep leaves the current position at its last in-window reading |
| PositionPhases.AccelerationEffect | PositionManager.h:72-103 | steps+1 writes, one per ramp entry; commanded ends at the last entry; only the reverse phase logs torques |
| PositionPhases.StallRecoveryEffect | PositionManager.h:125-161 | a stall reads extend once and sends Stop, Rezero(500) and 250 recovery writes, logging their 250 torques |
| PositionPhases.CruiseFinishedPassed | PositionManager.h:110 | a finished cruise stopped because the current position passed the end position |
| PositionPhases.CruiseWarmup | PositionManager.h:121 | no stall is recognised during the warm-up ticks (23 forward, 7 reverse) |
| PositionPhases.CruiseStallNeedsTorque | PositionManager.h:122 | no stall is recognised unless a reading reaches the stall torque (0.20 forward, 0.40 reverse) |
| PositionPhases.CruiseIsSweep | PositionManager.h:106-171 | an unstalled cruise is a sweep toward commanded + k*velocity; commanded ends at commanded + ticks*velocity |
| PositionPhases.RecoveryFrom | PositionManager.h:142-161 | the recovery burst leaves commanded = current = 500, the log's last 250 torques being the burst's |
| PositionPhases.CruiseStall | PositionManager.h:121-162 | a stalled cruise ends recovered; the forward one logged no torque before its burst |
| PositionPhases.DecelRate | PositionManager.h:177 | steps times the rate is maxSpeed |
| PositionPhases.DecelLoopEnds | PositionManager.h:174-212 | the forward loop runs at most its steps; it reads extend once per tick; it stops early only right after a read of 0 |
| PositionPhases.DecelReverseLoopRunsAll | PositionManager.h:319-345 | the reverse loop runs all its steps as a sweep over the deceleration targets |
| PositionPhases.DecelerationReverseSteps | PositionManager.h:319-345 | exactly `steps` writes; in-window torques logged; current is the last in-window reading |
| PositionPhases.DecelerationEnds | PositionManager.h:174-212 | with maxSpeed > 0, it ends after all steps or right after an extend read of 0; no torque logged |
| PositionPhases.HomingStallEffect | PositionManager.h:426-441 | a stall reads extend twice; the 100-tick backoff runs iff the second read is nonzero; then rezero to 500 |
| PositionPhases.HomingLoopEnds | PositionManager.h:404-453 | no torque logged; unless out of ticks, ends at 500/500 after Rezero(500); homed iff the last home read is 0, every earlier one nonzero |
| PositionPhases.HomingWarmup | PositionManager.h:425 | no obstruction is recognised in the first 20 ticks |
| PositionPhases.FirstInWindowSpec | PositionManager.h:473-478 | none found iff no position is in window; otherwise the first one in window |
| PositionPhases.TripleQueryResult | PositionManager.h:457-486 | queries in batches of 3; a result is in window and is the first in-window reading of the last batch, and every earlier batch held no in-window reading; no result only after every batch, none holding one |
| PositionPhases.ValidQueryResult | PositionManager.h:490-516 | at most 5 queries; -1 iff none of the 5 readings is in window; otherwise the first in-window reading |
| PositionPhases.HoldPositionDurationEffect | PositionManager.h:362-374 | HoldTicks(duration) writes of (position, 0), one reply each, nothing logged |
| PositionPhases.HoldsGrow | PositionManager.h:349-374 | the holds only append and advance |
| PositionPhases.HomingGrows | PositionManager.h:404-453 | homing only appends and advances |
| PositionPhases.CruiseGrows | PositionManager.h:106-171 | cruising only appends and advances |
| PositionManager.PositionManager.constructor | PositionManager.h:16-18 | the fields take the arguments; the torque log starts empty |
| PositionManager.PositionManager.ChangeMaxSpeed | PositionManager.h:63-65 | maxSpeed becomes the new value; nothing else changes |
| PositionManager.PositionManager.GetTorques | PositionManager.h:44 | returns the torque log |
| PositionManager.PositionManager.BuildRamp | PositionManager.h:74-90 | the loop builds the ramp AccelPositions |
| PositionManager.PositionManager.PerformAcceleration | PositionManager.h:72-103 | new state, commanded and current are Acceleration(forward) of the old state |
| PositionManager.PositionManager.PerformAccelerationReverse | PositionManager.h:218-247 | new state, commanded and current are Acceleration(reverse) of the old state |
| PositionManager.PositionManager.StallRecovery | PositionManager.h:140-160 | the state after a stall's recovery is StallRecovery of the old state |
| PositionManager.PositionManager.PerformCruising | PositionManager.h:106-171 | the outcome and new state are the forward Cruise of the old state |
| PositionManager.PositionManager.PerformCruisingReverse | PositionManager.h:250-316 | the outcome and new state are the reverse Cruise of the old state |
| PositionManager.PositionManager.PerformDeceleration | PositionManager.h:174-212 | the new state is Deceleration of the old; the result is the current position |
| PositionManager.PositionManager.PerformDecelerationReverse | PositionManager.h:319-345 | the new state is DecelerationReverse of the old |
| PositionManager.PositionManager.HoldPosition | PositionManager.h:349-359 | one write of (position, 0) and one reply; nothing logged |
| PositionManager.PositionManager.HoldPositionDuration | PositionManager.h:362-374 | HoldTicks(duration) such ticks |
| PositionManager.PositionManager.HoldPositionNan | PositionManager.h:377-387 | one write of (NaN, 0) and one reply |
| PositionManager.PositionManager.HoldPositionNanDuration | PositionManager.h:390-400 | one tick whatever the duration |
| PositionManager.PositionManager.HomingBackoff | PositionManager.h:431-436 | 100 ticks at -4.5, nothing logged |
| PositionManager.PositionManager.Homing | PositionManager.h:404-453 | the outcome and new state are Homing of the old state |
| PositionManager.PositionManager.TripleQuery | PositionManager.h:457-486 | the result and new state are TripleQueryLoop of the old state |
| PositionManager.PositionManager.ValidQuery | PositionManager.h:490-516 | the result and new state are ValidQueryLoop of the old state |
| VelocityCurveGenerator.Samples | VelocityCurveGenerator.h:33-37 | `count` samples, sample i being start + tanh(2i/numPoints)(end-start) |
| VelocityCurveGenerator.CurveLength | VelocityCurveGenerator.h:29-39 | numPoints+1 samples for positive numPoints; none for negative |
| VelocityCurveGenerator.CurveFirst | VelocityCurveGenerator.h:33-37 | with tanh(0)=0 the first sample is the start velocity |
| VelocityCurveGenerator.CurveLast | VelocityCurveGenerator.h:33-37 | the last sample is start + tanh(2)(end-start), not the end velocity |
| VelocityCurveGenerator.CurveMonotone | VelocityCurveGenerator.h:30-37 | with tanh nondecreasing on [0,2] and start <= end, the samples never decrease |
| VelocityCurveGenerator.CurveMonotoneDown | VelocityCurveGenerator.h:30-37 | with tanh nondecreasing on [0,2] and start >= end, the samples never increase |
| VelocityCurveGenerator.VelocityCurveGenerator.constructor | VelocityCurveGenerator.h:9-12 | the stored curve is Curve of the arguments; numPoints defaults to 100 |
| VelocityCurveGenerator.VelocityCurveGenerator.GetVelocities | VelocityCurveGenerator.h:14-20 | returns the stored velocities unchanged |
| VelocityCurveGenerator.VelocityCurveGenerator.GenerateCurve | VelocityCurveGenerator.h:28-39 | clears the velocities and fills them with the curve |
| MotionPhases.NearTorquesBound | MotionManager.h:98-99 | at most one torque per reading |
| MotionPhases.HoldPositionEffect | MotionManager.h:50-71 | HoldTicks(duration) writes of (position, 0), one torque logged per tick |
| MotionPhases.VelocityWrites | MotionManager.h:90 | one write (NaN, v) per velocity, in order |
| MotionPhases.VelocitySweepEnds | MotionManager.h:89-111 | a prefix of the curve commanded in order; exactly the near-goal torques logged; stopped early only on a near reading with torque >= 0.5 or extend 0 |
| MotionPhases.RunAccelerationResult | MotionManager.h:84-112 | the result is start + tanh(2)(end-start), the curve's last sample, whether or not it stopped early |
| MotionPhases.StableLoopEnds | MotionManager.h:123-155 | one write per tick; near torques logged; a result is the last reading, within 15 of the goal, with torque >= 0.8, at or past the goal, or met by an extend read of 0; every earlier near reading did none of these and its extend read was nonzero; the extend switch is read only after a near reading that did not halt; no result only when out of ticks |
| MotionPhases.InitialPositionEffect | MotionManager.h:174-189 | three queries, three replies, nothing logged |
| MotionPhases.BlindHomingLoopEnds | MotionManager.h:217-254 | forward ticks then, on a stall, 100 logged backoff ticks; home read only for near readings; homed iff the last home read is 0; a stall only after tick 13 at torque >= 0.05 |
| MotionPhases.BlindHomingWarmup | MotionManager.h:233-234 | no stall within 13 ticks |
| MotionManager.MotionManager.constructor | MotionManager.h:21-22 | the fields take the arguments; the torque log starts empty |
| MotionManager.MotionManager.GetTorques | MotionManager.h:38 | returns the torque log |
| MotionManager.MotionManager.AddTorque | MotionManager.h:46 | appends one torque; nothing is removed |
| MotionManager.MotionManager.HoldPosition | MotionManager.h:50-58 | the new state is the timed hold of the old state |
| MotionManager.MotionManager.HoldPositionNanosleep | MotionManager.h:61-71 | the same timed hold |
| MotionManager.MotionManager.HoldPositionNan | MotionManager.h:74-80 | HoldTicks(duration) write-only (NaN, 0) commands; no reply consumed, nothing logged |
| MotionManager.MotionManager.RunAcceleration | MotionManager.h:84-112 | the new state and result are RunAcceleration of the old state |
| MotionManager.MotionManager.RunPositionAcceleration | MotionManager.h:116-119 | returns 1.0 |
| MotionManager.MotionManager.MaintainStableVelocity | MotionManager.h:123-155 | the new state and result are StableLoop of the old state |
| MotionManager.MotionManager.GetInitialPosition | MotionManager.h:174-189 | the new state and result are InitialPosition: three queries, the third reading kept |
| MotionManager.MotionManager.GetPosition | MotionManager.h:191-201 | one query tick; returns that reply's position |
| MotionManager.MotionManager.GetTorque | MotionManager.h:204-214 | one query tick; returns that reply's torque |
| MotionManager.MotionManager.HomingNanosleep | MotionManager.h:217-254 | the new state and outcome are HomingNanosleep of the old state |
| MotionManager.MotionManager.Backoff | MotionManager.h:237-242 | 100 logged ticks at -4.5 |
| PositionControl.Step | position_control_test.cpp:75-166 | no iteration ever moves to ExtendError |
| PositionControl.Trace | position_control_test.cpp:73-169 | one state per iteration plus the initial one |
| PositionControl.TraceSnoc | position_control_test.cpp:73-169 | one more iteration appends Step of the last state |
| PositionControl.TraceSteps | position_control_test.cpp:73-169 | consecutive states of a run are related by Step |
| PositionControl.SafetyPreempts | position_control_test.cpp:75-166 | a safety read of 0 sends any state to lockout, left again only on a second read of 0 |
| PositionControl.UnavailableSafetyIsSafe | position_control_test.cpp:75-76 | a safety read of -1 acts exactly like 1 |
| PositionControl.InitialOnlyFromLockout | position_control_test.cpp:153-166 | Initial is entered iff from lockout on a second read of 0, or out of ExtendError |
| PositionControl.TraceAvoidsExtendError | position_control_test.cpp:70-156 | a run from any other state never visits ExtendError |
| PositionControl.SafeTransitions | position_control_test.cpp:79-152 | with the safety switch safe: each state's successor as the branches set it |
| PositionControl.HoldEnds | position_control_test.cpp:125 | the half-second hold appends exactly 487 writes of (position, 0) and takes nothing back |
| PositionControl.RampStart | position_control_test.cpp:119-122 | after the rezero to 500 the ramp from 500 is commanded in full; only the reverse ramp logs its in-window torques |
| PositionControl.HomeRunEffect | position_control_test.cpp:97-98 | homing starts with Rezero(500) and logs no torque; homed only after a home read of 0; unless cut short it ends at 500/500 with Rezero(500) then 487 holds at 500 |
| PositionControl.ExtendRunEffect | position_control_test.cpp:119-125 | an extension sends Rezero(500) and the forward ramp first, and unless cut short ends with 487 holds at the final commanded position |
| PositionControl.SheatheRunEffect | position_control_test.cpp:138-143 | a sheathing sends Rezero(500) and the reverse ramp first, and logs the ramp's in-window torques first |
| PositionControl.IterateFollowsStep | position_control_test.cpp:75-166 | unless a phase ran out of ticks, the new state is Step of the old state and of the values the iteration read |
| PositionControl.SafetyReadFirst | position_control_test.cpp:75-166 | the first read is the safety switch; on 0 the iteration only reads it again and holds one tick, ending in Initial on a second 0 and in lockout otherwise |
| PositionControl.IterateReads | position_control_test.cpp:79-166 | each recorded input is the switch value read in the acting state (home in Initial, activate after the hold in the waiting states, safety again in lockout, the homing outcome in Homing), 1 where nothing was read; the read counts advance accordingly |
| PositionControl.IterateGrows | position_control_test.cpp:79-166 | an iteration takes back no command, reading or torque |
| PositionControl.RunCons | position_control_test.cpp:73-169 | a run is its first iteration, then the rest unless that iteration was cut short |
| PositionControl.RunTrace | position_control_test.cpp:73-169 | a completed run takes all its iterations and ends in the last state of Trace of its inputs; runs only append and advance |
| PositionControl.ControlLoop | position_control_test.cpp:49-169 | after Stop and Rezero(500), the values read, commands sent and read counts are Run's from Initial at 500/500, and the states visited are Trace(Initial, inputs), never ExtendError |
| PositionControl.RunLoop | position_control_test.cpp:62-169 | the while loop's final rig, inputs and exhaustion are Run's, and its states are the trace of its inputs |
| PositionControl.Iteration | position_control_test.cpp:75-166 | the new rig, state, positions, values read and exhaustion are Iterate of the old ones |
| PositionControl.Move | position_control_test.cpp:95-151 | Homing, Extending and Sheathing do their Iterate work |
| PositionControl.Pause | position_control_test.cpp:79-166 | the other states do their Iterate work |
| PositionControl.Wait | position_control_test.cpp:88-94 | a one-tick hold at the commanded position, then one activate read deciding the next state |
| PositionControl.Release | position_control_test.cpp:158-164 | one safety read deciding Initial (on 0) or lockout, then a one-tick hold at the commanded position |
| PositionControl.HomeAndSettle | position_control_test.cpp:95-104 | the rig and positions are HomeRun's: homing, then the half-second hold unless homing ran out of ticks; success iff homing finished |
| PositionControl.Extend | position_control_test.cpp:116-127 | the rig and positions are ExtendRun's: Rezero(500), 500/500, forward acceleration, cruise, deceleration, half-second hold |
| PositionControl.Sheathe | position_control_test.cpp:135-151 | the rig and positions are SheatheRun's: Rezero(500), 500/500, reverse acceleration, cruise, deceleration |

## Left out

- Serial port setup, `clearBuffer`, closing, and the raw `write`/`read` calls (MyController.h:50-88, 203-208). These are operating-system I/O. Sent frames are a log of `Command` values, and replies come from an oracle.
- Short reads and uninitialised buffers. Not modelled. The decoder on a buffer returns `ShortReply` for fewer than 42 characters and `NotHex` for a non-hex group. The C++ stream parse of such text is not reproduced.
- GPIO chip and line handling in MyGpio.h. This is hardware. `readValue` is an oracle value with a cursor.
- `nanosleep`/`usleep` timing and all `std::cout` output. Sleep times do not change what is sent or read. Switch reads made only to print a value still consume a switch value.
- Floating-point rounding. Control arithmetic is on `real`. `std::tanh` is a parameter, and the frame builders of `Controller` take the float-to-bits function as a parameter. NaN commands are `Unchanged`, sent as the quiet NaN 0x7fc00000.
- NaN or infinite readings. Not modelled: reading positions and torques are reals.
- `maintainStableVelocityBlind` (MotionManager.h:157-170). An unbounded spin on a switch, pure I/O.
- `runAccelerationBlind` and `homing` of MotionManager. They are declared (MotionManager.h:29, 35) but have no body in the source.
- The hardware and test harness programs (true_position_reader.cpp, bk3_/bk4_position_control_test.cpp, loop_benchmark.cpp, stop_command.cpp, button_test.cpp, test_CommandGenerator.cpp, benchmarkTiming.cpp), the data programs (analyze_data.cpp, store_data_pairs.cpp), GraphPlotter.h and the Python scripts. These are not part of this model.
- The `timespec` argument of the PositionManager constructor. It only sets sleep times.
- PositionManager.PositionManager.PerformCruising: runs for at most `fuel` ticks and reports `OutOfFuel` when they run out. The source loops until the position passes the end.
- PositionManager.PositionManager.PerformCruisingReverse: the same tick bound.
- PositionManager.PositionManager.Homing: the same tick bound. The source loops until the home switch reads 0 or an obstruction.
- PositionManager.PositionManager.TripleQuery: at most `fuel` batches of three, returning `None` after them. The source repeats forever.
- MotionManager.MotionManager.MaintainStableVelocity: at most `fuel` ticks, returning `None` after them. The source loops until a break.
- MotionManager.MotionManager.HomingNanosleep: at most `fuel` ticks.
- PositionControl.ControlLoop: runs `iterations` loop iterations, not forever, and stops with `exhausted` when a phase runs out of its tick bound.
- PositionControl.Iteration: when a phase ran out of ticks the source would still be inside it. The iteration then ends early, and only `Iterate`'s cut-short result is promised, not `Step`.
- MotionManager.MotionManager.RunAcceleration: requires `steps > 0`. With 0 the curve is NaN. A negative count gives an empty curve, and `back()` on it is undefined.
- VelocityCurveGenerator.VelocityCurveGenerator.constructor: requires `numPoints != 0`. Zero points divide by zero and give a NaN curve.
- PositionControl.Step: records a switch the iteration did not read as 1 and homing that did not run as false. Holds and motion phases are not part of `Step`. Their commands are part of `Iterate`.
