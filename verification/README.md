# Action-potential clamp controllers (APqr family), modelled in Dafny

This project models the real-time control step (`execute`) of five RTXI controller
modules. Each one corrects a cardiomyocyte's membrane potential `Vm` toward a reference
action potential.

- **APqr7, APqr8, APqrPID3 and APqr13** first *learn* the reference, the same way in each:
  - They log `Vm` into a ring buffer.
  - They detect upstrokes by the rise of `Vm` over the last `1/period` samples.
  - They average the first `lognum` cycles sample by sample into `ideal_AP`, with a
    running mean of the cycle length `BCL`.
  - After learning, every detected upstroke starts a correction pass, which ends once
    the pass has run beyond `BCL_cutoff * BCL`.
- **The correction differs by variant:**
  - APqr7 commands a current proportional to the residual `Vm - ideal_AP[count]`.
  - APqr8 drives one LED channel with that current, clamped to [0, 5] V.
  - APqr13 picks a blue (depolarising) or red (repolarising) channel from the sign of the
    residual.
  - APqrPID3 drives the two channels from a PID controller. Its derivative term is the
    least-squares slope of the last `length` residuals.
- **Resistance adaptation:** APqr7, APqr8 and APqr13 adapt their resistance estimate
  `Rm` from consecutive residuals.
- **APqrPIDLTLP4** needs no learning phase. It replays a loaded reference wave
  (`wave[idx] * gain + offset`), paces while idle and loops over the wave `nloops` times.

Modules:

| module | file | contents |
|---|---|---|
| `Common` | common.dfy | buffer capacity, C++ `%` and double-to-int truncation, out-of-range reads |
| `Learning` | learning.dfy | the shared learning front end and the end of every tick |
| `Reference` | reference.dfy | what the learned `ideal_AP` and `BCL` mean (running-mean theorem) |
| `Regression` | regression.dfy | `sumx`, `sumx2`, `sumy`, `sumxy` and the slope |
| `Adaptation` | adaptation.dfy | the `Rm` up/down rule of APqr7, APqr8 and APqr13 |
| `PidCore` | pid_core.dfy | the PID tick shared by APqrPID3 and APqrPIDLTLP4 |
| `APqr7`, `APqr8`, `APqr13`, `APqrPID3`, `APqrPIDLTLP4` | one file each | the variant's state, `execute`, and the `MODIFY`/`PAUSE` resets |

Memory model:

- The three buffers hold `Cap = 10000` doubles each.
- Indices follow C++ integer arithmetic, so some reads can leave a buffer. These are:
  - `count - 1/period` before enough samples exist;
  - `Vm_diff_log[count - 1]` at `count == 0`;
  - negative window positions in `sumy`/`sumxy`;
  - `ideal_AP[int(BCL_cutoff * BCL)]`.
- Such a read returns whatever lies in memory there, so each tick carries a `Stray`
  oracle that supplies the value.
- Every write must land in range. Each `Step` states this as its precondition
  (`Learning.TickOk`, `APqrPIDLTLP4.TickOk`).

## Model

| member | source | states |
|---|---|---|
| Common.CRem | APqrPID3/APqrPID3.cpp:247 | C++ `%` gives the remainder congruent to the dividend modulo n that carries its sign: in (-n, 0] for a negative dividend, the usual remainder otherwise, and 0 exactly for a multiple of n |
| Common.Trunc | APqrPID3/APqrPID3.cpp:368 | `int(x)` truncates toward zero: within one of `x`, on the side of zero |
| Common.Zeros | APqrPID3/APqrPID3.cpp:172-179 | `cleanup()` leaves every one of the 10000 elements zero |
| Learning.Reset | APqrPID3/APqrPID3.cpp:467-477 | `MODIFY` restarts learning (`count`, `count2`, `BCL` zero, `APs = -1`, logging and upstroke flags off, buffers zeroed) and leaves `act` alone |
| Learning.Record | APqrPID3/APqrPID3.cpp:236 | the slot `count % modulo` lies inside the ring and the buffer, it now holds the sample, every other slot and every other field is unchanged |
| Learning.DelayedIndexLeavesBuffer | APqrPID3/APqrPID3.cpp:247 | the delayed index `(count - 1/period) % modulo` is negative (outside `Vm_log`) exactly when `count < 1/period` and the difference is not a multiple of `modulo`; otherwise it is inside the ring |
| Learning.RunningMean | APqrPID3/APqrPID3.cpp:260 | `(mean * n + v) / (n + 1)` times `n + 1` is the old sum plus the new value |
| Learning.BeginCycle | APqrPID3/APqrPID3.cpp:247-265 | a learning upstroke counts one more cycle, restarts logging at offset 0, marks the upstroke, and takes the finished cycle's length into the mean `BCL` (0 before the first cycle) |
| Learning.LogIdeal | APqrPID3/APqrPID3.cpp:277-286 | while fewer than `lognum` cycles are done and logging is on, `ideal_AP[count2]` becomes the running mean with weight `APs` and `count2` advances; otherwise nothing changes |
| Learning.Learn | APqrPID3/APqrPID3.cpp:247-306 | the learning lines in order: cycle count, `BCL`, upstroke flag, the logged slot (0 after an upstroke), and the switch into correction (`count = 0`, `act = 1`) only once `lognum` cycles are learned |
| Learning.LearnStep | APqrPID3/APqrPID3.cpp:236-306 | the same for a whole tick's learning half, including the `Vm_log` write, with the rise measured against the delayed sample |
| Learning.EndTick | APqrPID3/APqrPID3.cpp:384-390 | past `BCL_cutoff * BCL` correction stops; otherwise `act` is kept; `count` advances by one |
| Learning.FrontTick | APqrPID3/APqrPID3.cpp:229-390 | a tick keeps the learner's invariants, counts at most one new cycle, and turns correction on only once `lognum` cycles are learned |
| Learning.Run | APqrPID3/APqrPID3.cpp:229-390 | any sequence of ticks keeps the learner's invariants |
| Learning.RunKeepsLearningOrder | APqrPID3/APqrPID3.cpp:247-306 | over a run, `APs` stays within [-1, lognum], grows by at most one per tick, and correction is on only after `lognum` cycles |
| Learning.NoCorrectionBeforeReference | APqrPID3/APqrPID3.cpp:293-306 | from the initial state, no correction pass starts before the reference is complete |
| Reference.TracksTick | APqrPID3/APqrPID3.cpp:247-286 | one tick keeps `ideal_AP[k]` (times its weight) equal to the sum of the logged cycles' samples at `k`, and `BCL * APs` equal to the sum of their lengths |
| Reference.RunTracks | APqrPID3/APqrPID3.cpp:247-286 | the same over any run |
| Reference.MeansOnceLearned | APqrPID3/APqrPID3.cpp:247-286 | once `lognum` cycles are learned, `BCL` is the mean of their lengths and `ideal_AP[k]` the mean of their samples at every offset all of them reached |
| Reference.ReferenceIsMeanOfLoggedCycles | APqrPID3/APqrPID3.cpp:247-286 | from the initial state: after learning, exactly `lognum` cycles were logged, and the reference and `BCL` are their means |
| Reference.IdenticalCyclesAreReproduced | APqrPID3/APqrPID3.cpp:283 | if every learned cycle has sample `v` at offset `k`, the reference there is `v` |
| Regression.Window | APqrPID3/APqrPID3.cpp:181-207 | the sums visit `length` samples at positions `n - length + 1 .. n`, each taken with a truncating `% modulo` |
| Regression.Slope | APqrPID3/APqrPID3.cpp:315-320 | with a denominator below 0.001 in magnitude the slope is 10000; otherwise slope times denominator is the numerator |
| Regression.SumXClosedForm | APqrPID3/APqrPID3.cpp:209-217 | `sumx` equals `period * length * (length - 1) / 2` |
| Regression.SumX2ClosedForm | APqrPID3/APqrPID3.cpp:219-227 | `sumx2` equals `period^2 * (length - 1) * length * (2 length - 1) / 6` |
| Regression.DenominatorClosedForm | APqrPID3/APqrPID3.cpp:316 | the denominator equals `period^2 * length^2 * (length^2 - 1) / 12`, so it is tiny only for short windows or short periods |
| Regression.ShortWindowIsSentinel | APqrPID3/APqrPID3.cpp:316-318 | a window of at most one sample always gives the sentinel slope |
| Regression.SlopeRecoversLine | APqrPID3/APqrPID3.cpp:315-320 | the least-squares slope of samples on a line `a + b * t` is `b` whenever the denominator is usable |
| Regression.FlatWindowHasZeroSlope | APqrPID3/APqrPID3.cpp:315-320 | a constant residual has zero slope |
| Regression.SumXLoop | APqrPID3/APqrPID3.cpp:209-217 | the `sumx` loop computes the sum of sample times |
| Regression.SumX2Loop | APqrPID3/APqrPID3.cpp:219-227 | the `sumx2` loop computes the sum of squared sample times |
| Regression.SumYLoop | APqrPID3/APqrPID3.cpp:181-191 | the `sumy` loop computes the sum of the window's samples |
| Regression.SumXYLoop | APqrPID3/APqrPID3.cpp:193-207 | the `sumxy` loop computes the sum of each window sample times its sample time |
| Adaptation.Adapt | APqr8/APqr8.cpp:291-309 | the result is `Rm`, `Rm * Rm_corr_up` or `Rm / Rm_corr_down`, and stays positive |
| Adaptation.AdaptCases | APqr8/APqr8.cpp:282-310 | overshoot (opposite signs) scales `Rm` up; a growing same-sign residual scales it down unless the floor `Rm >= 0.01 * Rm_corr_down` forbids; nothing else changes it; the two cases exclude each other |
| Adaptation.FloorHolds | APqr8/APqr8.cpp:299 | with the floor and `Rm_corr_up >= 1`, a resistance of at least 0.01 never drops below 0.01 |
| Adaptation.NoFloorGoesBelow | APqr7/APqr7.cpp:226-229 | for every growing residual and every `Rm` in [0.01, 0.01 * `Rm_corr_down`), the unfloored rule of APqr7 takes `Rm` below 0.01 while the floored rule keeps it |
| PidCore.Cleared | APqrPID3/APqrPID3.cpp:474-477 | `MODIFY` zeroes `PID`, `Int` and the residual log and leaves the outputs and `VLED` as they were |
| PidCore.Drive | APqrPID3/APqrPID3.cpp:334-357 | the blue channel (negative PID below `blue_Vrev`) or the red one (positive PID) carries `VLED = ±PID / Rm` clipped at 5, the other is dark; otherwise both are dark and `VLED` is kept |
| PidCore.Absorb | APqrPID3/APqrPID3.cpp:312-314 | the residual is logged at the offset; it joins `Int` exactly when `VLED < 5` and (`Vm < blue_Vrev` or the residual is positive) |
| PidCore.Respond | APqrPID3/APqrPID3.cpp:326-358 | `PID` takes the new value; outputs change only when the offset reached `corr_start - 1` and `PID` moved by more than `PID_tresh`, and then the output stage `Drive` sets them, at most one channel lit |
| PidCore.PidTick | APqrPID3/APqrPID3.cpp:311-358 | a correcting tick: residual logged, integral gated both ways, `PID = K_p * e + K_i * Int + K_d * slope` over the updated log and integral, outputs kept unless the hysteresis test passes and then set by `Drive` from the new `PID` |
| PidCore.ProportionalDrive | APqrPID3/APqrPID3.cpp:326-357 | with `K_i = K_d = 0`, `PID = K_p * e`; past the hysteresis test a positive `PID` above `min_PID` lights red at `PID / Rm_red` and a negative one below `blue_Vrev` lights blue at `-PID / Rm_blue` (each clipped at 5), the other channel dark |
| PidCore.PidTickKeepsSafe | APqrPID3/APqrPID3.cpp:309-358 | a correcting tick keeps `VLED` and both outputs in [0, 5] and never lights both channels |
| APqrPID3.Modify | APqrPID3/APqrPID3.cpp:451-478 | `MODIFY` restarts learning and clears `PID`, `Int` and the buffers; outputs, `VLED` and the reset counter are kept; validity is preserved |
| APqrPID3.Pause | APqrPID3/APqrPID3.cpp:483-488 | `PAUSE` stops correction and darkens both outputs, nothing else |
| APqrPID3.ResetIntegral | APqrPID3/APqrPID3.cpp:368-381 | near rest (`abs(Vm - ideal_AP[int(BCL_cutoff * BCL)]) < 0.005`) consecutive ticks are counted, and after `length` of them `Int` is zeroed and the count restarts; elsewhere nothing changes; the counter stays below `length` |
| APqrPID3.Correct | APqrPID3/APqrPID3.cpp:309-364 | while correcting, a PID tick against `ideal_AP[count]`; otherwise both outputs dark; the outputs stay safe |
| APqrPID3.Back | APqrPID3/APqrPID3.cpp:309-390 | after the learning half: outputs stay safe, are dark whenever correction is off, are kept while the hysteresis test fails, and `Int` only changes by the gated residual or the reset |
| APqrPID3.Step | APqrPID3/APqrPID3.cpp:229-395 | one `execute` keeps the state valid, moves the front end as `Learning.FrontTick`, and leaves both outputs dark whenever correction is off afterwards |
| APqr8.Clamp | APqr8/APqr8.cpp:269-271 | the output is the current when in [0, 5], 0 below, 5 above |
| APqr8.ZeroResidualGivesNoOutput | APqr8/APqr8.cpp:266-273 | a residual of zero drives no light |
| APqr8.Modify | APqr8/APqr8.cpp:364-383 | `MODIFY` restarts learning, takes the new `Rm`, zeroes the buffers, keeps the output |
| APqr8.Pause | APqr8/APqr8.cpp:388-393 | `PAUSE` stops correction and darkens the output |
| APqr8.Back | APqr8/APqr8.cpp:261-323 | while correcting before the cutoff the output is the clamped `Cm / Rm * residual`; idle ticks keep it; past the cutoff it is dark; `Rm` follows the floored adaptation exactly when `corr`, `count > 1` and the residual is above noise |
| APqr8.Step | APqr8/APqr8.cpp:177-324 | one `execute` keeps the state valid (output in [0, 5], `Rm > 0`) and changes `Rm` by at most one factor `Rm_corr_up` or `1/Rm_corr_down` |
| APqr7.Command | APqr7/APqr7.cpp:212-213 | the command voltage times `Rm` is `-2.5e-3 * Cm * residual`, zero for a zero residual |
| APqr7.Modify | APqr7/APqr7.cpp:286-305 | `MODIFY` restarts learning, takes the new `Rm`, keeps both outputs |
| APqr7.Pause | APqr7/APqr7.cpp:310-315 | `PAUSE` stops correction and zeroes output 0 only |
| APqr7.Back | APqr7/APqr7.cpp:210-239 | while correcting, output 1 shows `ideal_AP[count]` and output 0 the command; past the cutoff output 0 is zero; `Rm` follows the unfloored adaptation exactly when its gate holds |
| APqr7.Step | APqr7/APqr7.cpp:176-244 | one `execute` keeps the state valid; while a pass goes on, output 1 shows `ideal_AP` at the offset just corrected |
| APqr13.Modify | APqr13/APqr13.cpp:264-285 | `MODIFY` restarts learning, takes both new resistances, keeps channel flags and outputs |
| APqr13.Pause | APqr13/APqr13.cpp:290-296 | `PAUSE` stops correction and darkens both outputs |
| APqr13.AdaptChannel | APqr13/APqr13.cpp:151-173 | a channel's `Rm` follows the floored adaptation only while that channel is lit, the pass reached `corr_start - 1` and the residual is above noise; it stays positive |
| APqr13.Select | APqr13/APqr13.cpp:175-202 | a negative residual below `blue_Vrev` lights blue with `-residual / Rm_blue` clipped at `VLED_max`; a positive one lights red likewise; otherwise both dark; at most one channel is lit |
| APqr13.Correct | APqr13/APqr13.cpp:146-219 | before `corr_start - 1`, or when not correcting, both channels dark; otherwise the residual is logged, both resistances adapt, and a channel is selected |
| APqr13.Back | APqr13/APqr13.cpp:146-225 | past the cutoff correction stops and only output 0 is darkened; everything else keeps what the tick set |
| APqr13.Step | APqr13/APqr13.cpp:111-230 | one `execute` keeps the state valid (at most one channel lit, both outputs in [0, `VLED_max`]), and only a channel lit on the previous tick has its resistance adapted |
| APqrPIDLTLP4.Inc | APqrPIDLTLP4/APqrPIDLTLP4.cpp:249-250 | `size_t` increment: `x + 1` below 2^64, and 0 from 2^64 - 1 |
| APqrPIDLTLP4.SizeSub | APqrPIDLTLP4/APqrPIDLTLP4.cpp:189 | `size_t` subtraction wraps modulo 2^64 |
| APqrPIDLTLP4.DelayedIndexAsWritten | APqrPIDLTLP4/APqrPIDLTLP4.cpp:189 | the delayed index `(idx2 - 1/dt) % wave.size()` as written is inside the wave; it is the plain remainder once `idx2 >= 1/dt`, and before that `(2^64 + idx2 - 1/dt) % wave.size()` |
| APqrPIDLTLP4.DelayedIndex | APqrPIDLTLP4/APqrPIDLTLP4.cpp:189 | the corrected delayed index is inside the wave and lies `1/dt` slots before `idx2` counting around the wave |
| APqrPIDLTLP4.DelayedIndexAfterWrap | APqrPIDLTLP4/APqrPIDLTLP4.cpp:189 | both readings agree once `idx2 >= 1/dt`; with 1000 samples, `1/dt = 1` and `idx2 = 0` the source reads slot 615 where the ring position is 999 |
| APqrPIDLTLP4.Modify | APqrPIDLTLP4/APqrPIDLTLP4.cpp:327-353 | `MODIFY` rewinds `idx`/`idx2`, clears `PID`, `Int` and the buffers, keeps `act`, `loop` and the outputs |
| APqrPIDLTLP4.Pause | APqrPIDLTLP4/APqrPIDLTLP4.cpp:355-363 | `PAUSE` darkens both outputs, stops correction, rewinds `idx`, `idx2` and `loop` |
| APqrPIDLTLP4.Pace | APqrPIDLTLP4/APqrPIDLTLP4.cpp:183-186 | idle below `V_light_on`, output 0 carries the pacing level and output 1 is dark; otherwise nothing changes |
| APqrPIDLTLP4.Enter | APqrPIDLTLP4/APqrPIDLTLP4.cpp:189-193 | an upstroke while idle starts a pass at `idx = 0` |
| APqrPIDLTLP4.Correct | APqrPIDLTLP4/APqrPIDLTLP4.cpp:195-247 | while correcting, a PID tick against `wave[idx] * gain + offset`; the residual at `idx` is `Vm` minus that reference |
| APqrPIDLTLP4.Advance | APqrPIDLTLP4/APqrPIDLTLP4.cpp:249-265 | at the end of the wave `idx2` returns to 0, correction stops, both outputs go dark and `loop` counts when `nloops` is set; otherwise `idx2` advances and nothing else changes |
| APqrPIDLTLP4.FrontAt | APqrPIDLTLP4/APqrPIDLTLP4.cpp:175-193 | logging, pacing and the entry test keep `idx2` and `loop`, write the sample to its slot, and only restart `idx` at 0, never move it elsewhere |
| APqrPIDLTLP4.StepAt | APqrPIDLTLP4/APqrPIDLTLP4.cpp:175-266 | past the empty-wave test one tick keeps the state valid; after `nloops` passes only the sample is logged |
| APqrPIDLTLP4.Step | APqrPIDLTLP4/APqrPIDLTLP4.cpp:171-266 | one corrected `execute` keeps the state valid; with no wave nothing changes; after `nloops` passes only the sample is logged |
| APqrPIDLTLP4.PacingWhileIdle | APqrPIDLTLP4/APqrPIDLTLP4.cpp:183-193 | an idle tick below `V_light_on` with no upstroke, before the wave ends, paces on output 0 and leaves output 1 dark |
| APqrPIDLTLP4.EntryStartsPass | APqrPIDLTLP4/APqrPIDLTLP4.cpp:189-250 | an upstroke while idle corrects at offset 0 against `wave[0] * gain + offset` and, unless the wave ends, continues at offset 1 |
| APqrPIDLTLP4.WrapEndsPass | APqrPIDLTLP4/APqrPIDLTLP4.cpp:259-265 | the tick at the end of the wave ends the pass dark and counts it when `nloops` is set |
| APqrPIDLTLP4.StepAsWritten | APqrPIDLTLP4/APqrPIDLTLP4.cpp:171-266 | the tick as written divides by zero exactly when no wave is loaded; otherwise it keeps the state valid and agrees with `Step` once `idx2 >= 1/dt` |

## Left out

- Hardware I/O, the GUI and display state are not modelled. This covers the input scaling
  `input(0) * 1e2`, `output(...)` as a side effect, `setState`/`getParameter`,
  `count_r`/`systime`/`iAP_V` and the `pauseButton` toggle.
  - `Vm` arrives with each tick.
  - The outputs are state fields.
  - Parameters are configuration fields. The sources re-read them at `MODIFY`, and
    APqr13 also re-reads `VLED_max` at `PAUSE` (APqr13/APqr13.cpp:295).
- A configuration change is not modelled as a transition: each variant's `Step`, `Modify`
  and `Pause` keep the state valid under one unchanged configuration. After a `MODIFY` that
  lowers `VLED_max`, APqr13's outputs can sit above the new maximum until the next tick
  rewrites them.
- `abs()` on a double is modelled as the real absolute value `Common.Abs`. The sources
  call it unqualified after including `math.h` (APqrPID3/APqrPID3.cpp:317, 330, 334, 344,
  368; APqr8/APqr8.cpp:282, 299; APqr13/APqr13.cpp:151, 157, 163, 169; APqr7/APqr7.cpp:220,
  226; APqrPIDLTLP4/APqrPIDLTLP4.cpp:202, 217, 221, 231). Whether that call resolves to the double overload or to
  the integer `abs` depends on the headers, and the model assumes the double overload.
- Floating point is not modelled: doubles are real numbers. Rounding, infinities and NaN
  are out of scope.
- `1/period` and `modulo` are derived by the `PERIOD` case from the real-time period.
  They are configuration fields here (`delay`, `ring`), with `0 < ring <= 10000`.
- `lognum` is a whole number here, and so are `length`/`dlength`. The sources hold them as
  doubles, and a non-integral value would change the loop counts.
- Adaptation.AboveNoise: `noise_tresh >= 0` is required. A negative threshold lets a zero
  residual through, and then `prev / 0` is evaluated.
- The `INIT` and `UNPAUSE` cases, the wave file loader of APqrPIDLTLP4 and its
  `PERIOD` case are not modelled (configuration and I/O). The wave is a configuration
  sequence.
- Learning.TickOk: writes outside a buffer are excluded by precondition, not modelled as
  memory corruption. These are `ideal_AP[count2]` beyond 10000, `Vm_diff_log[count]` beyond
  10000, and the LTLP4 `Vm_log` slot.
- `Iout` of APqr7 and APqr8 is a per-tick intermediate. Only the output voltage it
  produces is modelled, so the `Iout = 0` of their `PAUSE` case has no counterpart.

## Findings

| source | as written | input that shows it | evidently intended | confidence | as-written member | corrected member |
|---|---|---|---|---|---|---|
| APqrPIDLTLP4/APqrPIDLTLP4.cpp:176-181 | `Vm_log[idx2 % wave.size()]` is evaluated before the empty-wave check on line 178 | any tick with no wave loaded (`wave.size() == 0`) divides by zero | check for an empty wave before indexing, and only then log the sample | not executed | APqrPIDLTLP4.StepAsWritten | APqrPIDLTLP4.Step |
| APqrPIDLTLP4/APqrPIDLTLP4.cpp:189 | `idx2 - (int)(1/dt)` is unsigned, so before `idx2` reaches the delay it wraps modulo 2^64 and then is reduced by `wave.size()` | `wave.size() == 1000`, `1/dt == 1`, `idx2 == 0`: slot 615 is read instead of 999 | read the slot `1/dt` before `idx2` around the wave, `(idx2 - 1/dt) mod wave.size()` | not executed | APqrPIDLTLP4.DelayedIndexAfterWrap | APqrPIDLTLP4.DelayedIndex |
