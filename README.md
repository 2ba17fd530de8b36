# stepper02: S-curve stepper motion engine and command line

stepper02 drives a stepper motor along a seven-segment constant-jerk ("S-curve") profile. A console command line
(`mv`, `sp`, `jk`) feeds a planner, `move_DoMove`. The planner splits the acceleration time into symmetric segments and
uses the fixed-point polynomial `move_pvajt` to compute the ramp distance and the cruise speed. It then writes a table of
seven segment boundaries. A timer interrupt, `move_IsrHandler`, runs at twice the sample rate. Its integrate phase picks
the jerk of the current segment and integrates jerk, then acceleration, then speed, then a 2^40-scaled fractional
position. It emits a step whenever that position leaves [0, 2^40). Its clear phase lowers the step pins and ends the move
after `runSamples` samples.

The project models these parts:

- `FixedPoint.dfy`: the 2^40 scale, C++ truncating division (`Quot`) and `move_pvajt` (`Pvajt`), with its accuracy
  against the exact polynomial and its symmetry under a change of sign.
- `Planner.dfy`: the integer part of `move_DoMove` as pure functions:
  - the sign split of the step count;
  - the segment lengths and their running sums;
  - the six `move_pvajt` calls;
  - the `seg4Move` check;
  - the plan an accepted move commits.

  It has two versions: `PlanAsWritten` is the code as written, and `PlanMove` also rejects a cruise speed that is not
  positive (see Findings).
- `Integrator.dfy`: the movement globals and pins as one value `EngineState`. `Tick` is one interrupt, `Ticks` a run of
  them, and `Reset` and `Commit` are the two ways the globals are written outside the interrupt.
- `Engine.dfy`: class `MotionEngine`. Its fields are the `gMove*` globals, `runSamples`, `seg1End`..`seg7End` and the five
  pins. `Init`, `DoMove` and `IsrHandler` update them in place, and each is proved against the pure model. `DoMove`
  first computes its plan with `ComputePlan`, which writes nothing, and then commits an accepted plan.
- `Trajectory.dfy`: whole moves. The interrupts follow the exact sampled motion. Over the planner's symmetric table the
  motion has these properties:
  - it starts at rest;
  - it reaches the cruise speed `move_pvajt` computed at the end of segment 3;
  - it ends at rest after `runSamples` samples;
  - with a non-negative jerk, the speed stays between zero and the cruise speed;
  - it covers exactly the cruise speed times `totalAccelSamples + seg4Samples` samples;
  - while the cruise speed is at most one step per sample, the interrupt emits exactly that distance in whole steps,
    rounded down.
- `CommandLine.dfy`: class `CommandInterpreter`. It holds the command buffer and the word buffer as arrays, and
  `cmd_length`, `cmd_state`, `word_begin`, `word_end` and `word_length` as fields. Its methods are `InitCommand`,
  `GetCommand` (the console character is a parameter, and the echo is returned), `CommandToString` and the verb match of
  `ProcessCommand`. Each method is proved against pure functions: an editor `Receive` and a tokenizer `NextWord`.

`move_DoMove` (line 344) does not clamp segment 2: `totalAccelSamples - 2*seg1Samples` is used as is. `SegmentLengths`
computes exactly that, and `MonotoneIffNonNegative` shows that a negative length makes the table go backwards.

## Model

| member | source | states |
|---|---|---|
| FixedPoint.Quot | stepper02_main.cpp:435-436 | C++ `/` by a positive divisor: the quotient rounds toward zero, so the remainder has the sign of the dividend |
| FixedPoint.Pvajt | stepper02_main.cpp:432-438 | `move_pvajt` over `t` samples of constant jerk; its contract: no samples return the start unchanged, and with no jerk and no acceleration the motor coasts, gaining `v*t` in position at constant speed (accuracy and symmetry are `PvajtAccuracy` and `PvajtNegate`) |
| FixedPoint.QuotNegate | stepper02_main.cpp:435-436 | truncating division commutes with negation: `Quot(-a, d) == -Quot(a, d)` |
| FixedPoint.PvajtAccuracy | stepper02_main.cpp:432-438 | `at = a0 + j0*t` exactly; twice `vt` is within 1 of `2*v0 + 2*a0*t + j0*t*t`; six times `pt` is within 8 of the exact cubic; `t = 0` returns the start unchanged |
| FixedPoint.PvajtNegate | stepper02_main.cpp:432-438 | negating the start state and the jerk negates all three outputs, because the divisions truncate toward zero |
| FixedPoint.Wrap64 | stepper02_main.cpp:326 | the int64 two's-complement value of an integer: in range, congruent to it modulo 2^64, and the integer itself when it already fits |
| Planner.SpeedTarget | stepper02_main.cpp:326 | for any uint32 speed set point; below 2^23 steps per second (where the shift fits) the speed per sample is the floor of `v*2^40 / 50000`: `r*50000 <= v*2^40 < (r+1)*50000` |
| Planner.SpeedTargetWraps | stepper02_main.cpp:326 | the value `2^32 - n` that `sp -n` leaves in the uint32 parameter `v` (line 309), for `0 < n <= 2^23`, wraps to `-n*2^40`, and the speed per sample is `trunc(-n*2^40 / 50000)`, which is negative |
| Planner.SpeedTargetOfMinus50000 | stepper02_main.cpp:326 | `sp -50000` gives exactly one step per sample backwards, `-2^40` |
| Planner.SignSplit | stepper02_main.cpp:313-318 | the direction is CCW exactly when `x < 0`; the magnitude is non-negative and, signed by the direction, gives back `x` |
| Planner.MirrorSplit | stepper02_main.cpp:313-318 | `x` and `-x` have the same magnitude and opposite directions |
| Planner.SegmentLengths | stepper02_main.cpp:342-347 | segments 3, 5 and 7 are as long as segment 1 and segment 6 as segment 2; segments 1-3 add up to `totalAccelSamples`; segment 4 is the given length |
| Planner.Cumulative | stepper02_main.cpp:393-402 | each boundary minus the one before is that segment's length, so the boundaries are the running sums of the lengths |
| Planner.MonotoneIffNonNegative | stepper02_main.cpp:393-402 | the boundaries are non-decreasing, starting at 0 or more, exactly when every segment length is 0 or more |
| Planner.SymmetricBoundaries | stepper02_main.cpp:342-347 | the end of segment 3 is `totalAccelSamples`; the deceleration boundaries mirror the acceleration ones; `seg7End == 2*totalAccelSamples + seg4Samples` |
| Planner.Profile | stepper02_main.cpp:353-366 | the six `move_pvajt` calls, chained as the source chains its output variables: the state at the end of segment 3 and at the end of segment 7 without segment 4 (what they are is `ProfileRestToRest`) |
| Planner.RampUp | stepper02_main.cpp:353-359 | from rest, the jerk ramp, the coast and the reverse ramp end with no acceleration at speed `J*s1*(s1+s2)` |
| Planner.RampDown | stepper02_main.cpp:364-366 | from no acceleration, the mirrored ramps end with no acceleration and exactly `J*s1*(s1+s2)` less speed |
| Planner.Seg4Move | stepper02_main.cpp:370 | the distance left for segment 4: the requested steps at 2^40 scale less the distance of the six ramps (decided on by `PlanAsWritten` and `PlanMove`) |
| Planner.CruiseSpeed | stepper02_main.cpp:359-371 | `v3`, the speed at the end of segment 3 that line 371 divides by (its value is `ProfileRestToRest` and, in closed form, `Trajectory.CruiseSpeedClosedForm`) |
| Planner.ProfileRestToRest | stepper02_main.cpp:353-366 | the six `move_pvajt` calls end segment 3 with no acceleration and cruise speed `J*s1*(s1+s2)`, and end segment 7 with no acceleration and no speed |
| Planner.RampFromRest | stepper02_main.cpp:353 | from rest, a jerk ramp of `t` samples gives acceleration `j*t` and speed `trunc(j*t*t/2)` |
| Planner.Coast | stepper02_main.cpp:356 | with no jerk the acceleration is unchanged and the speed grows by `a*t` |
| Planner.Ramp | stepper02_main.cpp:359-366 | a ramp of jerk `+m` or `-m` changes the speed by `a*t` plus or minus `trunc(m*t*t/2)`, and the acceleration by plus or minus `m*t` |
| Planner.Commitment | stepper02_main.cpp:393-403 | a plan's boundaries are the running sums of the lengths, and `runSamples == seg7End + 1` |
| Planner.PlanAsWritten | stepper02_main.cpp:370-378 | the code as written: the move is rejected, as too short, exactly when `seg4Move < 0` |
| Planner.PlanMove | stepper02_main.cpp:309-429 | too short exactly when `seg4Move < 0`; no positive cruise speed exactly when `seg4Move >= 0` and `v3 <= 0`; an accepted plan has the request's direction and jerk, the running-sum boundaries of the symmetric lengths, and `runSamples == seg7End + 1` |
| Planner.PlanMoveRefinesAsWritten | stepper02_main.cpp:370-378 | when the cruise speed is positive, and whenever `PlanMove` accepts, the corrected planner gives the same result as the code as written |
| Planner.PlanMirror | stepper02_main.cpp:313-327 | `x` and `-x` are both accepted or both rejected for the same reason; accepted, they give the same boundaries, run length and jerk, and for `x != 0` opposite directions |
| Planner.AcceptedPlanShape | stepper02_main.cpp:342-403 | with non-negative jerk and lengths, an accepted plan's table is non-decreasing with a non-empty first segment, segments 7 and 6 mirror 1 and 2, it runs at least one sample, and its jerk is positive |
| Planner.NoRampFits | stepper02_main.cpp:353-366 | with an empty first segment every `move_pvajt` call starts and ends at rest |
| Planner.AsWrittenAcceptsZeroCruise | stepper02_main.cpp:370-378 | with `seg1Samples == 0` the cruise speed is 0, yet the code as written accepts the move (see Findings) |
| Planner.AsWrittenAcceptsNegativeCruise | stepper02_main.cpp:353-378 | for `J = -5629`, `totalAccelSamples = 29647`, `seg1Samples = 9882`, `seg4Samples = -129653` and 100000 steps, every range condition holds, the cruise speed is negative, `seg4Move` is positive, and the code as written accepts the move with `runSamples == -70358` (see Findings) |
| Planner.NegativeCruiseRejected | stepper02_main.cpp:370-378 | the corrected planner rejects that move for having no positive cruise speed |
| Integrator.Reset | stepper02_main.cpp:287-306 | `move_Init` leaves no move in progress and does not touch the pins |
| Integrator.Commit | stepper02_main.cpp:409-425 | the start of a move: busy; sample, phase, jerk, acceleration, speed, fraction and position 0; the plan's boundaries, run length and jerk; both direction pins are 1 exactly for CCW; LED and step pins unchanged |
| Integrator.ApplyPlan | stepper02_main.cpp:375-378 | a rejected move changes nothing; an accepted one commits its plan |
| Integrator.SegmentJerk | stepper02_main.cpp:451-467 | the cascade of boundary tests; its contract: the jerk of any sample is `+J`, `0` or `-J` (which one per segment is `SegmentJerkBySegment`) |
| Integrator.SegmentJerkBySegment | stepper02_main.cpp:451-467 | on a non-decreasing table, a sample in segments 1..7 gets jerk `+J, 0, -J, 0, -J, 0, +J`, and samples at or after `seg7End` get 0 |
| Integrator.LowBits | stepper02_main.cpp:483 | the low 40 bits lie in [0, 2^40), differ from the value by a multiple of 2^40, and equal the value when it is already in range |
| Integrator.IntegratePhase | stepper02_main.cpp:446-488 | the integrate phase of one interrupt (its effect is `TickIntegrate`) |
| Integrator.ClearPhase | stepper02_main.cpp:489-501 | the clear phase of one interrupt (its effect is `TickClear`) |
| Integrator.Tick | stepper02_main.cpp:441-506 | one interrupt: nothing but the LED when idle, otherwise the phase the phase flag selects, then the LED follows busy (its effect is `TickIdle`, `TickFrame`, `TickIntegrate` and `TickClear`) |
| Integrator.Ticks | stepper02_main.cpp:441-506 | `n` interrupts in a row (composed by `TicksAdd`; a whole move is `MoveTiming` and `MoveEnds`) |
| Integrator.TickIdle | stepper02_main.cpp:441-506 | when no move is in progress, an interrupt changes only the LED, which goes low |
| Integrator.TickFrame | stepper02_main.cpp:441-506 | an interrupt never sets busy; the LED mirrors busy; the jerk constant, boundaries, run length and direction pins are unchanged |
| Integrator.TickIntegrate | stepper02_main.cpp:446-488 | integrate phase: phase 1, sample + 1, the segment's jerk, `accel += jerk` then `speed += accel`; the position grows by at most one, and by exactly one (with both step pins high) exactly when the new fraction has bits above 2^40; with a step the fraction becomes `LowBits` of the new fraction, without one it is the new fraction itself, and either way it ends in [0, 2^40) |
| Integrator.TickClear | stepper02_main.cpp:489-501 | clear phase: phase 0, both step pins low, still busy exactly when `sample < runSamples`, motion registers unchanged |
| Integrator.TickLossless | stepper02_main.cpp:476-484 | while the speed is between 0 and one step per sample, whole steps plus fraction grow by exactly the speed |
| Integrator.TickBackwardCountsForward | stepper02_main.cpp:479-484 | a fraction pushed below zero has its high bits set, so the position still goes up by one |
| Integrator.IdleForever | stepper02_main.cpp:441-506 | any number of interrupts with no move only clears the LED |
| Integrator.PowerOnStaysIdle | stepper02_main.cpp:111-128 | after power-on no number of interrupts starts a move, and every pin stays low |
| Integrator.FracPosStaysInRange | stepper02_main.cpp:476-484 | the fraction stays in [0, 2^40) over any number of interrupts, and the move's parameters do not change |
| Integrator.MoveTiming | stepper02_main.cpp:446-501 | from the start of a move, `2k` interrupts leave sample `k` in phase 0, busy exactly when `k < runSamples`; one more leaves sample `k+1` in phase 1, busy |
| Integrator.MoveEnds | stepper02_main.cpp:494-505 | after `2*runSamples` interrupts or more, the move is over and the LED is low |
| Integrator.TicksAdd | stepper02_main.cpp:441-506 | `m + n` interrupts are `m` interrupts followed by `n` |
| Engine.MotionEngine.constructor | stepper02_main.cpp:111-128 | the engine comes up in the power-on state: `move_Init`, with every pin low |
| Engine.MotionEngine.Init | stepper02_main.cpp:287-306 | the new state is `Reset` of the old |
| Engine.MotionEngine.SetMotion | stepper02_main.cpp:289-297 | writes busy and the jerk, zeroes the other motion registers, and changes nothing else |
| Engine.MotionEngine.SetTable | stepper02_main.cpp:393-403 | writes the boundary table and the run length, and changes nothing else |
| Engine.ComputePlan | stepper02_main.cpp:313-403 | computes the plan as `move_DoMove` does, sign split, six `move_pvajt` calls, the `seg4Move` check and the running sums, and returns exactly `PlanMove` of the inputs |
| Engine.MotionEngine.DoMove | stepper02_main.cpp:309-429 | the result is `PlanMove` of the inputs; the new state is the old one when the move is rejected and `Commit` of the plan when it is accepted |
| Engine.MotionEngine.CommitPlan | stepper02_main.cpp:393-425 | the new state is `Commit` of the old one with the plan |
| Engine.MotionEngine.SetOutputs | stepper02_main.cpp:124-128 | the LED, step and direction pins take the given levels |
| Engine.MotionEngine.SetDirection | stepper02_main.cpp:413-414 | both direction pins take the given level, and nothing else changes |
| Engine.MotionEngine.IsrHandler | stepper02_main.cpp:441-506 | the new state is `Tick` of the old |
| Engine.MotionEngine.IntegrateSample | stepper02_main.cpp:446-488 | the new state is the integrate phase of the old |
| Engine.MotionEngine.IntegrateJerk | stepper02_main.cpp:469-476 | acceleration, speed and fraction are integrated in that order, each from the value just written |
| Engine.MotionEngine.TakeStep | stepper02_main.cpp:478-485 | when the fraction has bits above 2^40: step pins up, fraction masked to its low bits, position + 1; otherwise nothing changes |
| Engine.MotionEngine.SelectJerk | stepper02_main.cpp:451-467 | the jerk becomes the one the table gives the current sample |
| Engine.MotionEngine.EndSample | stepper02_main.cpp:489-501 | the new state is the clear phase of the old |
| Trajectory.Sample | stepper02_main.cpp:469-476 | one sample of the exact motion: jerk into acceleration, acceleration into speed, speed into position, each from the value just written (matched against the interrupt by `SampleTicks`) |
| Trajectory.Run | stepper02_main.cpp:446-501 | `n` exact samples, each taking its jerk from the table (followed by the interrupts, `TicksFollowRun`) |
| Trajectory.Steps | stepper02_main.cpp:469-476 | `n` exact samples of one jerk (in closed form, `StepsClosedForm` and `StepsPosition`) |
| Trajectory.StepsClosedForm | stepper02_main.cpp:469-476 | over `n` samples of constant jerk `j` the acceleration grows by `n*j` and twice the speed by `2*n*a + j*n*(n+1)` |
| Trajectory.SampleTicks | stepper02_main.cpp:446-501 | the integrate and clear interrupts of one sample change acceleration and speed as one exact sample of the table's jerk; when the speed is between 0 and 2^40 whole steps plus fraction advance exactly as the exact position |
| Trajectory.TicksFollowRun | stepper02_main.cpp:441-506 | after `2k` interrupts of a started move, acceleration and speed are those of `k` exact samples; while every speed is between 0 and one step per sample, whole steps plus fraction are the exact position too |
| Trajectory.SCurveHalf | stepper02_main.cpp:451-467 | jerk `c` for `s1` samples, none for `s2`, then `-c` for `s1`, starting with no acceleration, ends with no acceleration and the speed grown by `c*s1*(s1+s2)` |
| Trajectory.Accelerate | stepper02_main.cpp:451-456 | over a symmetric table, from rest, segments 1-3 end with no acceleration at speed `J*s1*(s1+s2)` |
| Trajectory.Cruise | stepper02_main.cpp:457-458 | segment 4 keeps the acceleration and, when that is zero, the speed |
| Trajectory.Decelerate | stepper02_main.cpp:459-464 | with no acceleration at the end of segment 4, segments 5-7 end with no acceleration and take `J*s1*(s1+s2)` off the speed |
| Trajectory.PlanTableSymmetric | stepper02_main.cpp:342-402 | with lengths of 0 or more, the planner's table is `s1, s2, s1, s4, s1, s2, s1` |
| Trajectory.SCurveRestToRest | stepper02_main.cpp:342-402 | the exact sampled run over the planner's table reaches speed `J*s1*(s1+s2)` with no acceleration at the end of segment 3, holds it through segment 4, and ends segment 7 at rest |
| Trajectory.ReachesCruise | stepper02_main.cpp:441-506 | a move started from rest is still busy after `2*seg3End` interrupts, with no acceleration and speed `J*s1*(s1+s2)` |
| Trajectory.StopsAtRest | stepper02_main.cpp:441-506 | after `2*runSamples` interrupts a move started from rest is over, with no acceleration and no speed |
| Trajectory.CruiseSpeedClosedForm | stepper02_main.cpp:353-359 | the speed `move_pvajt` gives at the end of segment 3 is `J*s1*(totalAccelSamples - s1)` |
| Trajectory.AcceptedPlanIsSymmetric | stepper02_main.cpp:342-417 | an accepted plan has the table `s1, s2, s1, s4, s1, s2, s1`, the requested jerk, `seg3End == totalAccelSamples` and `runSamples == 2*totalAccelSamples + seg4Samples + 1` |
| Trajectory.CommittedMoveRestToRest | stepper02_main.cpp:309-506 | after `DoMove` accepts and commits a plan, `2*totalAccelSamples` interrupts (the end of segment 3) leave the move busy, with no acceleration and exactly the cruise speed `move_pvajt` computed; `2*runSamples` interrupts leave it idle, with no speed and no acceleration |
| Trajectory.LastSample | stepper02_main.cpp:465-477 | the sample at `seg7End` gets no jerk, so a motor at rest there stays at rest and in place |
| Trajectory.HalfAccelBetween | stepper02_main.cpp:451-470 | inside one half of the S-curve, starting with no acceleration, the acceleration stays between 0 and its peak `s1*c` |
| Trajectory.SpeedRises | stepper02_main.cpp:469-473 | where no acceleration is negative the speed never falls |
| Trajectory.SpeedFalls | stepper02_main.cpp:469-473 | where no acceleration is positive the speed never rises |
| Trajectory.AccelerationPhase | stepper02_main.cpp:451-470 | with `J >= 0`, over a symmetric table, the acceleration is at least 0 at every sample up to the end of segment 4 |
| Trajectory.DecelerationPhase | stepper02_main.cpp:451-470 | with `J >= 0`, over a symmetric table, the acceleration is at most 0 from the end of segment 4 to the sample after segment 7 |
| Trajectory.SpeedBounded | stepper02_main.cpp:451-473 | with `J >= 0`, at every sample of a symmetric move the speed lies between 0 and the cruise speed `J*s1*(s1+s2)` |
| Trajectory.StepsExact | stepper02_main.cpp:441-506 | a move started from rest over a symmetric table, with cruise speed at most 2^40, ends with whole steps times 2^40 plus the fraction equal to the exact sampled position, so the step count is that position divided by 2^40, rounded down |
| Trajectory.CommittedMoveStepsExact | stepper02_main.cpp:309-506 | the same for a move `DoMove` accepts and commits: no step is lost or added by the fractional bookkeeping |
| Trajectory.StepsPosition | stepper02_main.cpp:469-476 | over `n` samples of constant jerk `j`, six times the position grows by `6*n*v + 3*a*n*(n+1) + j*n*(n+1)*(n+2)` |
| Trajectory.StretchPosition | stepper02_main.cpp:451-476 | over `t` samples in which the table gives jerk `c`, the acceleration, speed and position follow the constant-jerk polynomials from the stretch's start |
| Trajectory.HalfPosition | stepper02_main.cpp:451-476 | one half of the S-curve from no acceleration covers the starting speed times `2*s1+s2` plus `c*s1*(s1+s2)*(2*s1+s2+2)/2` |
| Trajectory.AccelerationDistance | stepper02_main.cpp:451-476 | segments 1-3 of a symmetric table, from rest, cover `J*s1*(s1+s2)*(2*s1+s2+2)/2` |
| Trajectory.CruiseDistance | stepper02_main.cpp:457-476 | with no acceleration, segment 4 adds the cruise speed once per sample |
| Trajectory.DecelerationDistance | stepper02_main.cpp:459-476 | with no acceleration at the end of segment 4, segments 5-7 cover the speed there times `2*s1+s2`, less `J*s1*(s1+s2)*(2*s1+s2+2)/2` |
| Trajectory.MoveDistance | stepper02_main.cpp:451-476 | a whole symmetric move covers exactly `J*s1*(s1+s2)` (the cruise speed) times `2*s1+s2+s4` samples |
| Trajectory.CommittedMoveStepCount | stepper02_main.cpp:309-506 | a move `DoMove` accepts and commits, with cruise speed at most 2^40, emits `(cruise speed * (totalAccelSamples + seg4Samples)) / 2^40` steps, rounded down, after `2*runSamples` interrupts |
| CommandLine.EditLine | stepper02_main.cpp:185-205 | how one character edits the line (its properties are `EditLineBounded`, `BackspaceDropsLast`, `TypeThenBackspace`, `CtrlUEmpties` and `OthersIgnored`) |
| CommandLine.EditEcho | stepper02_main.cpp:185-205 | what one editing character echoes (its properties are `CtrlUEmpties` and `OthersIgnored`) |
| CommandLine.Receive | stepper02_main.cpp:166-210 | one call of `GetCommand` on the state and the line: prompt, edit or end of line (`GetCommand` is proved against it; `CompleteLineHeld` and `EnterLine` state what it does) |
| CommandLine.ReceiveEcho | stepper02_main.cpp:166-210 | what that call echoes (`GetCommand` returns exactly this) |
| CommandLine.ReceiveAll | stepper02_main.cpp:166-210 | a sequence of calls (`ReceiveAllAppend`, `TypePrintable`, `TypeIntoFullLine`, `EnterLine`) |
| CommandLine.EditLineBounded | stepper02_main.cpp:185-205 | editing keeps the line printable and at most 71 characters long |
| CommandLine.BackspaceDropsLast | stepper02_main.cpp:185-191 | backspace and DEL drop the last character of a non-empty line and leave an empty one alone |
| CommandLine.TypeThenBackspace | stepper02_main.cpp:185-204 | a printable character followed by a backspace gives back the line; on a full line the character is ignored |
| CommandLine.CtrlUEmpties | stepper02_main.cpp:192-198 | ctrl-U empties the line and echoes three characters for each character removed |
| CommandLine.OthersIgnored | stepper02_main.cpp:180-205 | any other character changes nothing and echoes nothing |
| CommandLine.CompleteLineHeld | stepper02_main.cpp:170-209 | once the line is complete (state 2), input changes nothing and echoes nothing |
| CommandLine.TypePrintable | stepper02_main.cpp:199-204 | printable characters that fit are appended in order |
| CommandLine.TypeIntoFullLine | stepper02_main.cpp:200 | printable characters typed into a full line are dropped |
| CommandLine.EnterLine | stepper02_main.cpp:170-184 | from state 0, a prompt, then printable characters and a carriage return, leave exactly the typed line and state 2 |
| CommandLine.ReceiveAllAppend | stepper02_main.cpp:166-210 | receiving `s + t` is receiving `s`, then `t` |
| CommandLine.SkipSpaces | stepper02_main.cpp:234-236 | stops at the first non-space at or after the cursor, or at the end of the line |
| CommandLine.SkipWord | stepper02_main.cpp:240-243 | stops at the first space at or after the cursor, or at the end of the line |
| CommandLine.NextWord | stepper02_main.cpp:233-243 | the word lies after the cursor, and within the line when the cursor is |
| CommandLine.Token | stepper02_main.cpp:240-243 | a word holds no space |
| CommandLine.NextWordMaximal | stepper02_main.cpp:233-243 | only spaces come before the word; the word is a maximal run of non-spaces; it is empty exactly when only spaces follow the cursor |
| CommandLine.NextWordOf | stepper02_main.cpp:233-243 | on spaces, a word, then a space or the end, the word found is that word |
| CommandLine.SuccessiveWords | stepper02_main.cpp:233-243 | the next call starts at or after the end of the last word, and starts exactly there only when the line or the last word has run out |
| CommandLine.CString | stepper02_main.cpp:218-222 | the C string is the prefix of the buffer before its first NUL |
| CommandLine.VerbOf | stepper02_main.cpp:218-224 | `mv`, `sp` and `jk` select the move, speed and jerk commands, each exactly for that word |
| CommandLine.CommandInterpreter.constructor | stepper02_main.cpp:156-163 | fresh buffers and the state `InitCommand` leaves |
| CommandLine.CommandInterpreter.InitCommand | stepper02_main.cpp:156-163 | state 0, an empty line, and the word cursor at 0 |
| CommandLine.CommandInterpreter.GetCommand | stepper02_main.cpp:166-210 | the new line and state are `Receive` of the old with the input; the echo is `ReceiveEcho`; the result is true exactly in state 2; the line stays printable, at most 71 characters long and NUL-terminated |
| CommandLine.CommandInterpreter.RubOut | stepper02_main.cpp:193-198 | empties the buffer and echoes one rubout per character removed |
| CommandLine.CommandInterpreter.CommandToString | stepper02_main.cpp:228-247 | the word span is `NextWord` from the old `word_end`; the word buffer holds exactly `cmd_buffer[word_begin..word_end)` followed by NUL |
| CommandLine.CommandInterpreter.FindWord | stepper02_main.cpp:233-243 | the two scanning loops find `NextWord` from the cursor |
| CommandLine.CommandInterpreter.ProcessCommand | stepper02_main.cpp:213-225 | takes the next word, and the verb is `VerbOf` that word |

## Left out

- Console output and input (`console.printf`, `putc`, `getc`, `readable`) are external devices. `GetCommand` takes an
  optional character (`None` when nothing is readable) and returns the echo, prompt included, as a string. The banner
  `printf`s of `main`, the `printf`s of the three commands and the diagnostic `printf`s of `move_DoMove` are not
  modelled.
- `GetCommand`: in state 0 the source does not read the console. The model's input is ignored there, which stands for a
  character that stays in the console for the next call. The model does not capture that the character is kept.
- `MoveCommand`, `SpeedCommand` and `JerkCommand` (lines 254-280) call the C library's `strtol`, which is not part of this
  model. `ProcessCommand` returns the verb it matched; the numbers are inputs of `DoMove`.
- The floating-point steps of `move_DoMove` are not modelled:
  - the jerk conversion (line 325);
  - `sqrt` and `floor` for `totalAccelSamples` (lines 334-335);
  - `floor` for `seg1Samples` (line 342);
  - `ceil` for `seg4Samples` (line 371).

  Their results are the parameters `jerkAmount`, `totalAccelSamples`, `seg1Samples` and `seg4Samples`.
- The timer and interrupt-controller setup (lines 131-136) and the interrupt masking (lines 410, 428) are hardware and
  concurrency.
- Engine.MotionEngine.CommitPlan: the commit is one atomic step, which is stronger than the source. Only lines 411-427
  run with the interrupt masked (it is disabled at line 410 and enabled again at line 428); `gMoveBusy = true` (line 425)
  is among them. The table and `runSamples` (lines 393-403) and two `printf`s (lines 405-407) are written before the
  mask. Neither `MoveCommand` (lines 254-264) nor `main` (lines 139-148) checks `gMoveBusy`. So a
  `mv` issued while a move runs lets the interrupt continue the old move against the new table and `runSamples`. The old
  move's sample, jerk and direction keep running, which can end it early or shorten its segments. The model does not
  capture that interleaving.
- The `main` loop (lines 139-148) is not modelled. The pins are plain booleans, without `DigitalOut` semantics.
- Planner.PlanMove: overflow of int64 and int32 is excluded by the precondition `PlanFits`. That covers `-x` for
  `INT32_MIN` (restricted to the range where `x << 40` fits), the `move_pvajt` products, `seg4Move` and the boundary
  sums. Wrap-around is not modelled.
- Planner.SpeedTarget: the conversion of line 326 is modelled for every value of the uint32 parameter `v`, and the shift `v << 40`,
  which overflows int64 for `v >= 2^23`, is taken to wrap modulo 2^64 as C++20 defines it. Before C++20 that shift is
  undefined, and the model does not capture it. Its result enters only the floating-point steps of lines 334-335, which
  the model takes as parameters, so nothing else in the model uses it.
- Integrator.Tick: the interrupt's registers are unbounded integers. int64 wrap-around of the acceleration, speed and
  fraction, and int32 wrap-around of the sample count and the position, are not modelled.
- Trajectory.TicksFollowRun: the step count matches the exact position only while the speed stays between 0 and one
  step per sample. Moves whose cruise speed exceeds 2^40 (more than one step per sample, which the source cannot emit)
  have no step-count lemma.
- Trajectory.CommittedMoveStepCount: the count is stated in terms of `seg4Samples`, which the source takes from a
  floating-point `ceil` (line 371). How it compares with the requested step count depends on that rounding and on the
  truncations inside `move_pvajt`, so it is not stated.

## Findings

| source | as written | input that shows it | evidently intended | confidence | as-written member | corrected member |
|---|---|---|---|---|---|---|
| stepper02_main.cpp:370-378 | the only check is `seg4Move < 0`; line 371 has already divided `seg4Move` by the cruise speed `v3` | `sp 0` (or any speed small enough that `totalAccelSamples < 3`) then `mv 100`: `seg1Samples == 0`, so `v3 == J*s1*(s1+s2) == 0`, yet `seg4Move == 100*2^40 >= 0` and the move is accepted after a division by zero | a move with no cruise speed is rejected before segment 4 is sized | not executed | Planner.AsWrittenAcceptsZeroCruise | Planner.PlanMove |
| stepper02_main.cpp:370-378 | the only check is `seg4Move < 0`, so a negative cruise speed `v3` passes whenever the ramps run backwards far enough | `jk -640000`, `sp -50000`, `mv 100000`, relying on two's-complement shifts at lines 325-326 (defined from C++20, undefined before): the int32 speed set point -50000 reaches `move_DoMove`'s uint32 parameter `v` (line 309) as 2^32 - 50000, and its shift by 40 overflows int64 and wraps to -50000*2^40, so the speed target is -2^40 (`SpeedTargetOfMinus50000`); line 325 shifts the negative jerk set point, which fits. Every input with `v3 < 0` needs this wrap, because `J < 0` makes the square root of lines 334-335 need a negative speed target, which the uint32 `v` gives only by wrapping. The floating-point steps then give `J = -5629`, `totalAccelSamples = 29647` and `seg1Samples = 9882`; then `v3 = -1099443502170`, `seg4Move = 142546364286433990 >= 0`, line 371 gives `seg4Samples = -129653`, and the move is accepted with `runSamples = -70358`, so the interrupt runs one sample and stops | a move without a positive cruise speed is rejected before segment 4 is sized | not executed | Planner.AsWrittenAcceptsNegativeCruise | Planner.PlanMove |
