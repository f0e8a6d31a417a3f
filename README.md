# GyverPID in Dafny

A model of the GyverPID library's controller class `GyverPID`, a discrete-time PID
controller for Arduino. Each call of `getResult` runs one control tick, which:

- computes the regulation error `setpoint - input` and the input change `prevInput - input`, negating both for the REVERSE direction;
- forms the proportional term, which is `error * Kp` in ON_ERROR mode and 0 in ON_RATE mode;
- forms the derivative term `delta_input * Kd / dt_s`;
- adds `error * Ki * dt_s` to the integral sum;
- in ON_RATE mode, folds `delta_input * Kp` into the integral;
- clamps the integral and then P + D + integral to the output limits with Arduino's `constrain`.

The integral is accumulated in one of two ways:

- as a plain running sum;
- with a window of size N (`PID_INTEGRAL_WINDOW > 0`), in a ring buffer of the last N contributions. The cursor advances, the old slot is subtracted, and the new contribution is written and added.

With `PID_OPTIMIZED_I`, P + D is clamped first. Then, when `Ki != 0`, the integral is clamped to the headroom that remains, divided by `Ki * dt_s`. There are two timed entry points:

- `getResultTimer` runs a tick only when at least `dt` ms have passed on the wrapping 32-bit `millis()` counter.
- `getResultNow` first sets the interval to the measured elapsed time, then runs a tick.

The project has four modules:

- `Arduino` (arduino.dfy): the fixed-width integer types, `constrain`, and `millis()` with its 32-bit wrap-around.
- `PidTick` (pid_tick.dfy): `PidState`, a value holding every field of the object. A tick is a function on `PidState`, built from one stage function per block of `getResult`. The timer-gated and elapsed-time ticks are built on top of it.
- `PidProperties` (pid_properties.dfy): lemmas about these functions and about `constrain`.
- `GyverPid` (gyver_pid.dfy): the class itself. Its fields are updated in place, and the window buffer is an `array<real>`. Every method is proved to leave the object in the state the `PidTick` functions describe, and the setters are proved to change nothing else. Each block of the `getResult` body is a method of its own; `GetResult` runs them in order.

The two compile-time options are constant fields of the object, fixed when it is constructed: the window size, where 0 means no window, and the `PID_OPTIMIZED_I` switch.

Three consequences of the code are worth stating outright:

- The integral of the window mode is not always the sum of the window buffer. The replacement step alone keeps `integral - sum(errors)` unchanged, but the final integral clamp does not touch the buffer. In ON_ERROR mode without `PID_OPTIMIZED_I`, an integral equal to the buffer's sum stays equal to it after a tick exactly when that clamp does not bite (`TickKeepsWindowSum`).
- With Kp = 2, Ki = 0.5, dt = 100 ms, limits 0..255, setpoint 100 and input 0, the first tick gives 2·100 + 0.5·100·0.1 = 205, inside the limits (`FirstTickScenario`).
- With `PID_OPTIMIZED_I` and a negative `Ki`, the re-clamp range is inverted, and `constrain` snaps the integral to one of its two ends on every tick (`AntiwindupBounds`).

The window cursor `t` is a 16-bit unsigned counter, as in the code. For windows of more than 65536 slots, `++t` wraps to 0 before it reaches N, so the higher slots are never written (`CursorWrapsAtSixteenBits`).

## Model

| member | source | states |
|---|---|---|
| `Arduino.Constrain` | src/GyverPID.h:121-123 | For an ordered range the result lies in it. An argument already inside is returned unchanged. For an inverted range the result is one of the two bounds. |
| `PidProperties.ConstrainIsNearest` | src/GyverPID.h:121 | The clamped value is the point of the range nearest to the argument. |
| `PidProperties.ConstrainIdempotent` | src/GyverPID.h:123 | Clamping again to the same ordered range changes nothing. |
| `PidProperties.ConstrainMonotonic` | src/GyverPID.h:123 | Clamping to an ordered range preserves the order of its arguments. |
| `Arduino.Millis` | src/GyverPID.h:129-130 | `millis()` is the elapsed time modulo 2^32; it is the time itself before the first wrap. |
| `Arduino.ElapsedSince` | src/GyverPID.h:129 | `millis() - pidTimer` in unsigned 32-bit arithmetic. Added to `pidTimer` it gives `millis()` modulo 2^32. It is the plain difference when the counter has not wrapped since, and 2^32 plus the difference when it has. |
| `PidTick.Initial` | src/GyverPID.h:144-152 | A fresh object satisfies the window invariant and `dt_s == dt / 1000`. Its output, integral and previous input are 0, and its default limits 0..255 are ordered. |
| `PidTick.WithDt` | src/GyverPID.h:79-82 | `setDt` stores the new interval and keeps `dt_s == dt / 1000`; no other field changes. |
| `PidTick.NextCursor` | src/GyverPID.h:106 | `if (++t >= N) t = 0` keeps the cursor below N and advances it by one when no wrap occurs. |
| `PidTick.Accumulate` | src/GyverPID.h:104-112 | With a window, the new cursor is below N. The buffer changes only at the cursor, which then holds `error * Ki * dt_s`. Without a window, the contribution is added to the integral and the buffer and cursor stay as they were. |
| `PidTick.IntegralScale` | src/GyverPID.h:117 | `Ki * dt_s` is non-zero whenever both `Ki` and `dt_s` are, so the division guarded by `Ki != 0` is defined for a non-zero interval. |
| `PidTick.Tick` | src/GyverPID.h:93-125 | A tick keeps the window invariant. It changes only the previous input (to the current input), the integral, the output, the buffer and the cursor. With ordered limits, both output and integral end within them. |
| `PidProperties.TickClampsToNearest` | src/GyverPID.h:121-123 | No value within the limits is nearer than the new integral to the integral before its clamp, or nearer than the new output to the partial output (P + D, already clamped under `PID_OPTIMIZED_I`) plus the new integral. |
| `PidTick.TimerTick` | src/GyverPID.h:128-134 | Under `dt` ms elapsed (wrapping), nothing changes. Otherwise the timer is set to `millis()` and the tick runs. |
| `PidTick.NowTick` | src/GyverPID.h:137-141 | The interval becomes the elapsed time, with both representations consistent. The timer is set to `millis()` and the tick runs. |
| `PidTick.SumUpdate` | src/GyverPID.h:107-109 | Overwriting one buffer slot changes the buffer's sum by the new value minus the old. |
| `PidTick.SumZeros` | src/GyverPID.h:151 | A zeroed buffer sums to 0. |
| `PidProperties.DirectionNegatesTerms` | src/GyverPID.h:97-100 | Error and input change are negated exactly in the REVERSE direction. |
| `PidProperties.DirectionSymmetry` | src/GyverPID.h:94-100 | A REVERSE tick has the same output, integral and buffer as a NORMAL tick whose setpoint and previous input are mirrored around the input. |
| `PidProperties.TickDependsOnTerms` | src/GyverPID.h:93-125 | Two states that agree on error, input change, gains, integral, `dt_s`, mode, limits and buffer tick to the same output, integral and buffer. |
| `PidProperties.RateModeMovesProportionalIntoIntegral` | src/GyverPID.h:101-120 | ON_RATE has no P term and adds `delta_input * Kp` to the integral; ON_ERROR has P = `error * Kp` and adds no Kp term. Without `PID_OPTIMIZED_I`, switching mode shifts P + D and the pre-clamp integral by exactly these amounts. |
| `PidProperties.AntiwindupBounds` | src/GyverPID.h:116-117 | With ordered limits and `PID_OPTIMIZED_I`: for `Ki > 0` the re-clamped integral lies between `(min - partial) / (Ki * dt_s)` and `(max - partial) / (Ki * dt_s)`. For `Ki < 0` it is one of those two ends. For `Ki == 0`, or without the option, it is unchanged. |
| `PidProperties.PlainStages` | src/GyverPID.h:101-120 | Without window or `PID_OPTIMIZED_I`, the pre-clamp integral is the old one plus `error * Ki * dt_s`, plus the ON_RATE term, and the partial output is P + D. |
| `PidProperties.PlainTick` | src/GyverPID.h:93-125 | Without window or `PID_OPTIMIZED_I`, the new integral is the clamp of old integral + `error * Ki * dt_s` (+ ON_RATE term). The output is the clamp of P + `delta_input * Kd / dt_s` + new integral. |
| `PidProperties.SteadyOutputIsIntegral` | src/GyverPID.h:93-125 | In every configuration, with the input on the setpoint and not moving and ordered limits (containing 0 under `PID_OPTIMIZED_I`), the output equals the new integral. |
| `PidProperties.SteadyTick` | src/GyverPID.h:93-125 | Without window and without `PID_OPTIMIZED_I`, with the input on the setpoint and not moving and ordered limits, output and integral both become the clamped old integral, and the buffer is unchanged. |
| `PidProperties.SteadyState` | src/GyverPID.h:93-125 | Without window and without `PID_OPTIMIZED_I`, a state with the input on the setpoint and not moving and ordered limits reaches a fixed point after one tick: a second tick changes nothing. |
| `PidProperties.DerivativeKick` | src/GyverPID.h:93-125 | In every configuration, with `Kp == Ki == 0`, an empty integral, a zeroed window buffer and limits containing 0, an input step appears once as the clamped D term; the next tick with a still input outputs 0. |
| `PidProperties.FirstTickScenario` | src/GyverPID.h:93-125 | Kp = 2, Ki = 0.5, Kd = 0, dt = 100, setpoint 100, input 0: the first tick gives integral 5 and output 205. |
| `PidProperties.WindowStep` | src/GyverPID.h:106-108 | A windowed tick moves the cursor to the next slot below N and writes this tick's contribution there; every other slot is unchanged. |
| `PidProperties.AccumulateKeepsDifference` | src/GyverPID.h:107-109 | The replacement step leaves `integral - sum(errors)` unchanged. |
| `PidProperties.TickKeepsWindowSum` | src/GyverPID.h:106-121 | In ON_ERROR mode without `PID_OPTIMIZED_I`, take an integral equal to the buffer's sum. It still equals the sum after the tick if and only if the summed integral lay within the limits, that is, if the clamp did not bite. |
| `PidProperties.InitialWindowSum` | src/GyverPID.h:150-152 | A fresh object's integral equals its buffer's sum. |
| `PidProperties.CursorAfterSteps` | src/GyverPID.h:106 | For N ≤ 65536, a cursor `t < N` and k ≤ N advances, the cursor moves to `t + k`, or to `t + k - N` past the end. |
| `PidProperties.CursorCyclesThroughWindow` | src/GyverPID.h:106 | For N ≤ 65536 and a cursor `t < N`, N consecutive cursor advances (one per windowed tick, `WindowStep`) reach N distinct slots and end where they started, so each contribution is replaced exactly N ticks later. |
| `PidProperties.CursorWrapsAtSixteenBits` | src/GyverPID.h:152 | After slot 65535 the 16-bit cursor returns to 0 whatever N is. |
| `PidProperties.TimerHoldsWithinInterval` | src/GyverPID.h:128-134 | A second timer call within `dt` ms of the timer reset changes nothing and returns the same output. |
| `PidProperties.TimerFiresOneTick` | src/GyverPID.h:129-131 | When the timer fires, the result is exactly the plain tick with the timer reset, with the same output. |
| `PidProperties.NowTickMatchesTimerTickOnSchedule` | src/GyverPID.h:128-141 | When exactly `dt` ms have elapsed, `getResultNow` and a firing `getResultTimer` reach the same state. |
| `GyverPid.GyverPID.Default` | src/GyverPID.h:52 | `GyverPID()` leaves every field at its default and the buffer zeroed. |
| `GyverPid.GyverPID.constructor` | src/GyverPID.h:55-60 | `GyverPID(kp, ki, kd, dt)` is the defaults after `setDt(dt)` and the three gains. |
| `GyverPid.GyverPID.SetDirection` | src/GyverPID.h:63-65 | Only the direction changes. |
| `GyverPid.GyverPID.SetMode` | src/GyverPID.h:68-70 | Only the mode changes. |
| `GyverPid.GyverPID.SetLimits` | src/GyverPID.h:73-76 | Only the two limits change; they are not checked against each other. |
| `GyverPid.GyverPID.SetDt` | src/GyverPID.h:79-82 | The interval is set in both representations and nothing else changes. |
| `GyverPid.GyverPID.GetResult` | src/GyverPID.h:93-125 | The object's new state is `Tick` of its old state, and the returned value is the stored output. The previous input becomes the input. With ordered limits, output and integral lie within them. |
| `GyverPid.GyverPID.Deviations` | src/GyverPID.h:94-100 | Error and input change of the tick's state, oriented by direction; the input is stored as the previous input. |
| `GyverPid.GyverPID.ProportionalDerivative` | src/GyverPID.h:101-102 | The output holds P + D. |
| `GyverPid.GyverPID.SumIntegral` | src/GyverPID.h:104-112 | Integral, buffer and cursor become those of the summation step. |
| `GyverPid.GyverPID.LimitIntegral` | src/GyverPID.h:114-118 | The output becomes the partial output, and the integral its optimized-I re-clamp (or stays as it was). |
| `GyverPid.GyverPID.FoldAndClamp` | src/GyverPID.h:120-123 | Integral and output become their final clamped values. |
| `GyverPid.GyverPID.GetResultTimer` | src/GyverPID.h:128-134 | The new state is `TimerTick`, and the stored output is returned. Within the interval nothing changes and the previous output is returned. |
| `GyverPid.GyverPID.GetResultNow` | src/GyverPID.h:137-141 | The new state is `NowTick`. The interval equals the elapsed time, the timer is `millis()`, and the tick's output is returned. |

## Left out

- Floating-point rounding: `pidtype`, the gains, the integral and `dt_s` are exact reals, so IEEE-754 rounding, infinities and NaN are not modelled.
- The `PID_INTEGER` build, with its `int16_t` arithmetic and truncating conversions, is not part of this model.
- `millis()` is not called. Every timed operation takes `now`, the true number of milliseconds since start-up, and reads `now mod 2^32`. The code reads `millis()` twice per call; the model reads it once, so a counter tick between the two reads is not modelled.
- A zero interval is not modelled. A tick requires `dt_s > 0`, `GetResult` and `GetResultTimer` require `dt > 0`, and `GetResultNow` requires a non-zero elapsed time. In the code these cases divide by zero.
- The coefficient calibrators and the debug `Stream` output are not part of this model.
- The window buffer starts zeroed. An automatic C++ object would leave it indeterminate.
- SteadyTick: stated only without a window and without `PID_OPTIMIZED_I`. With a window, a steady tick still subtracts the overwritten slot from the integral, so the integral moves until the buffer has drained. Under `PID_OPTIMIZED_I`, the re-clamp can move the integral into the range of `AntiwindupBounds`. `SteadyOutputIsIntegral` states that output equals integral in every configuration.
- SteadyState: stated only without a window and without `PID_OPTIMIZED_I`, for the reasons given for `SteadyTick`.
- DerivativeKick: stated only for a zeroed window buffer, because a windowed tick subtracts the overwritten slot from the integral.
