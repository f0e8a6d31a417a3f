/**
 * The GyverPID controller object. Its methods update its fields in place,
 * as the C++ class does; each is proved to leave the object in the state
 * that the value-level specification in module PidTick describes.
 */
module GyverPid {
  import opened Arduino
  import opened PidTick

  class GyverPID {
    var setpoint: real
    var input: real
    var output: real
    var Kp: real
    var Ki: real
    var Kd: real
    var integral: real

    var dt: uint32      // iteration time in ms
    var dtS: real       // iteration time in s
    var mode: Mode
    var direction: Direction
    var minOut: int16
    var maxOut: int16
    var prevInput: real
    var pidTimer: uint32

    // The compile-time options, fixed for the object's lifetime.
    const window: nat
    const optimizedI: bool

    // The integral window buffer and its cursor (unused when `window == 0`).
    const errors: array<real>
    var t: uint16

    function Options(): Config reads this {
      Config(window, optimizedI)
    }

    /** Every field of the object as a value. */
    function State(): PidState reads this, errors {
      PidState(setpoint, input, output, Kp, Ki, Kd, integral, dt, dtS, mode, direction,
               minOut, maxOut, prevInput, pidTimer, errors[..], t)
    }

    ghost predicate Valid() reads this, errors {
      State().Valid(Options()) && State().IntervalsAgree()
    }

    /** `GyverPID()`: every field at its default, the window buffer zeroed. */
    constructor Default(window: nat, optimizedI: bool)
      ensures Valid() && fresh(errors)
      ensures Options() == Config(window, optimizedI)
      ensures State() == Initial(Options())
    {
      this.window := window;
      this.optimizedI := optimizedI;
      errors := new real[window](_ => 0.0);
      setpoint, input, output := 0.0, 0.0, 0.0;
      Kp, Ki, Kd, integral := 0.0, 0.0, 0.0, 0.0;
      dt, dtS := 100, 0.1;
      mode, direction := OnError, Normal;
      minOut, maxOut := 0, 255;
      prevInput, pidTimer, t := 0.0, 0, 0;
      new;
      assert errors[..] == seq(window, _ => 0.0);
    }

    /** `GyverPID(kp, ki, kd, dt = 100)`: the defaults, then `setDt(dt)` and the three gains. */
    constructor (window: nat, optimizedI: bool, newKp: real, newKi: real, newKd: real, newDt: uint32 := 100)
      ensures Valid() && fresh(errors)
      ensures Options() == Config(window, optimizedI)
      ensures State() == WithDt(Initial(Options()), newDt).(Kp := newKp, Ki := newKi, Kd := newKd)
    {
      this.window := window;
      this.optimizedI := optimizedI;
      errors := new real[window](_ => 0.0);
      setpoint, input, output := 0.0, 0.0, 0.0;
      Kp, Ki, Kd, integral := 0.0, 0.0, 0.0, 0.0;
      dt, dtS := 100, 0.1;
      mode, direction := OnError, Normal;
      minOut, maxOut := 0, 255;
      prevInput, pidTimer, t := 0.0, 0, 0;
      new;
      assert errors[..] == seq(window, _ => 0.0);
      assert State() == Initial(Options());
      SetDt(newDt);
      ghost var timed := State();
      Kp := newKp;
      Ki := newKi;
      Kd := newKd;
      assert State() == timed.(Kp := newKp, Ki := newKi, Kd := newKd);
    }

    /** `setDirection`: only the direction changes. */
    method SetDirection(newDirection: Direction)
      requires Valid()
      modifies this
      ensures Valid() && State() == old(State()).(direction := newDirection)
    {
      direction := newDirection;
    }

    /** `setMode`: only the mode changes. */
    method SetMode(newMode: Mode)
      requires Valid()
      modifies this
      ensures Valid() && State() == old(State()).(mode := newMode)
    {
      mode := newMode;
    }

    /** `setLimits`: only the two limits change; they are not checked against each other. */
    method SetLimits(minOutput: int16, maxOutput: int16)
      requires Valid()
      modifies this
      ensures Valid() && State() == old(State()).(minOut := minOutput, maxOut := maxOutput)
    {
      minOut := minOutput;
      maxOut := maxOutput;
    }

    /** `setDt`: both representations of the interval, and nothing else. */
    method SetDt(newDt: uint32)
      requires State().Valid(Options())
      modifies this
      ensures Valid() && dt == newDt
      ensures State() == WithDt(old(State()), newDt)
    {
      dtS := newDt as real / 1000.0;
      dt := newDt;
    }

    /**
     * `getResult`: one control tick; returns the stored output. Each block
     * of the C++ body is one of the methods below, proved to compute the
     * stage of `Tick` it stands for, given the snapshot `s` of the object
     * taken at the start of the tick.
     */
    method GetResult() returns (r: real)
      requires Valid() && dt > 0
      modifies this, errors
      ensures Valid()
      ensures State() == Tick(Options(), old(State()))
      ensures r == output && prevInput == old(input)
      ensures minOut <= maxOut ==> minOut as real <= output <= maxOut as real
      ensures minOut <= maxOut ==> minOut as real <= integral <= maxOut as real
    {
      ghost var c, s := Options(), State();
      var error, deltaInput := Deviations();
      ProportionalDerivative(error, deltaInput, s);
      SumIntegral(error, s);
      LimitIntegral(s);
      FoldAndClamp(deltaInput, s);
      r := output;
      TickStages(c, s);
      assert State() == Tick(c, s);
    }

    /**
     * The start of `getResult`: the error and the input change, both negated
     * in REVERSE direction; the current input becomes the previous one.
     */
    method Deviations() returns (error: real, deltaInput: real)
      modifies this`prevInput
      ensures error == Error(old(State())) && deltaInput == DeltaInput(old(State()))
      ensures prevInput == old(input)
    {
      error := setpoint - input;
      deltaInput := prevInput - input;
      prevInput := input;
      if direction == Reverse {
        error := -error;
        deltaInput := -deltaInput;
      }
    }

    /** The P and D terms of `getResult`: no P in ON_RATE mode. */
    method ProportionalDerivative(error: real, deltaInput: real, ghost s: PidState)
      requires s.dtS != 0.0 && error == Error(s) && deltaInput == DeltaInput(s)
      requires s.mode == mode && s.Kp == Kp && s.Kd == Kd && s.dtS == dtS
      modifies this`output
      ensures output == Proportional(s) + Derivative(s)
    {
      output := if mode == OnRate then 0.0 else error * Kp;
      output := output + deltaInput * Kd / dtS;
    }

    /**
     * The summation step of `getResult`: with a window, advance the cursor
     * and replace the oldest contribution; without one, add to the sum.
     */
    method SumIntegral(error: real, ghost s: PidState)
      requires |s.errors| == window && error == Error(s)
      requires s.Ki == Ki && s.dtS == dtS && s.integral == integral && s.errors == errors[..] && s.t == t
      modifies this`integral, this`t, errors
      ensures Window(integral, errors[..], t) == Accumulate(Options(), s)
    {
      if window > 0 {
        t := (t + 1) % TwoTo16;
        if t >= window {
          t := 0;
        }
        integral := integral - errors[t];
        errors[t] := error * Ki * dtS;
        integral := integral + errors[t];
      } else {
        integral := integral + error * Ki * dtS;
      }
    }

    /**
     * The `PID_OPTIMIZED_I` step of `getResult`: clamp P + D to the limits,
     * then the integral to the headroom left, scaled by `Ki * dt_s`.
     */
    method LimitIntegral(ghost s: PidState)
      requires s.dtS != 0.0 && |s.errors| == window
      requires output == Proportional(s) + Derivative(s)
      requires s.Ki == Ki && s.dtS == dtS && s.minOut == minOut && s.maxOut == maxOut
      modifies this`output, this`integral
      ensures output == PartialOutput(Options(), s)
      ensures integral == Antiwindup(Options(), s, old(integral), output)
    {
      if optimizedI {
        output := Constrain(output, minOut as real, maxOut as real);
        if Ki != 0.0 {
          assert Ki * dtS == IntegralScale(s);
          integral := Constrain(integral, (minOut as real - output) / (Ki * dtS),
                                (maxOut as real - output) / (Ki * dtS));
        }
      }
    }

    /**
     * The end of `getResult`: ON_RATE folds `delta_input * Kp` into the
     * integral, which is clamped to the limits, added to the output, and
     * the sum clamped again.
     */
    method FoldAndClamp(deltaInput: real, ghost s: PidState)
      requires deltaInput == DeltaInput(s)
      requires s.mode == mode && s.Kp == Kp && s.minOut == minOut && s.maxOut == maxOut
      modifies this`output, this`integral
      ensures integral == Constrain(RateFold(s, old(integral)), s.Lo(), s.Hi())
      ensures output == Constrain(old(output) + integral, s.Lo(), s.Hi())
    {
      assert minOut as real == s.Lo() && maxOut as real == s.Hi();
      RateFoldOf(s, integral, deltaInput, Kp);
      if mode == OnRate {
        integral := integral + deltaInput * Kp;
      }
      assert integral == RateFold(s, old(integral));
      integral := Constrain(integral, minOut as real, maxOut as real);
      output := output + integral;
      output := Constrain(output, minOut as real, maxOut as real);
    }

    /**
     * `getResultTimer`: a tick only when at least `dt` ms have elapsed since
     * `pidTimer` in wrapping 32-bit arithmetic; the stored output either way.
     */
    method GetResultTimer(now: nat) returns (r: real)
      requires Valid() && dt > 0
      modifies this, errors
      ensures Valid()
      ensures State() == TimerTick(Options(), old(State()), now) && r == output
      ensures ElapsedSince(now, old(pidTimer)) < old(dt) ==> State() == old(State()) && r == old(output)
    {
      if ElapsedSince(now, pidTimer) >= dt {
        pidTimer := Millis(now);
        var _ := GetResult();
      }
      r := output;
    }

    /**
     * `getResultNow`: the interval becomes the time elapsed since `pidTimer`,
     * the timer restarts, and one tick runs.
     */
    method GetResultNow(now: nat) returns (r: real)
      requires Valid() && ElapsedSince(now, pidTimer) > 0
      modifies this, errors
      ensures Valid()
      ensures State() == NowTick(Options(), old(State()), now) && r == output
      ensures dt == ElapsedSince(now, old(pidTimer)) && pidTimer == Millis(now)
    {
      SetDt(ElapsedSince(now, pidTimer));
      pidTimer := Millis(now);
      r := GetResult();
    }
  }
}
