/**
 * The value-level specification of the GyverPID controller: a snapshot of
 * every field of the object, the computation of one control tick, the
 * timer-gated and elapsed-time ticks, and the properties they keep.
 * Floating-point signals, gains and the integral are exact `real`s.
 */
module PidTick {
  import opened Arduino

  /** NORMAL (0) or REVERSE (1): REVERSE negates the error and the input change. */
  datatype Direction = Normal | Reverse

  /** ON_ERROR (0): proportional action on the error; ON_RATE (1): on the input change. */
  datatype Mode = OnError | OnRate

  /**
   * The two compile-time options: the integral window size
   * (`PID_INTEGRAL_WINDOW`, 0 disables it) and `PID_OPTIMIZED_I`.
   */
  datatype Config = Config(window: nat, optimizedI: bool)

  /** Every field of a controller object; `errors` is the integral window buffer. */
  datatype PidState = PidState(
    setpoint: real, input: real, output: real,
    Kp: real, Ki: real, Kd: real, integral: real,
    dt: uint32, dtS: real, mode: Mode, direction: Direction,
    minOut: int16, maxOut: int16, prevInput: real, pidTimer: uint32,
    errors: seq<real>, t: uint16)
  {
    /**
     * The window invariant: the buffer has the window's size and the
     * cursor indexes it (or stays 0 without a window).
     */
    predicate Valid(c: Config) {
      && |errors| == c.window
      && (if c.window == 0 then t == 0 else t < c.window)
    }

    /** `_dt_s` is `_dt` converted from milliseconds to seconds. */
    predicate IntervalsAgree() {
      dtS == dt as real / 1000.0
    }

    function Lo(): real { minOut as real }
    function Hi(): real { maxOut as real }
  }

  /** The field defaults of a freshly constructed object; the window buffer is all zeros. */
  function Initial(c: Config): (s: PidState)
    ensures s.Valid(c) && s.IntervalsAgree()
    ensures s.output == s.integral == s.prevInput == 0.0
    ensures s.Lo() <= s.Hi()
  {
    PidState(0.0, 0.0, 0.0, 0.0, 0.0, 0.0, 0.0, 100, 0.1, OnError, Normal,
             0, 255, 0.0, 0, seq(c.window, _ => 0.0), 0)
  }

  /** The effect of `setDt`: both representations of the interval change together. */
  function WithDt(s: PidState, newDt: uint32): (r: PidState)
    ensures r.dt == newDt && r.IntervalsAgree()
    ensures r.(dt := s.dt, dtS := s.dtS) == s
  {
    s.(dtS := newDt as real / 1000.0, dt := newDt)
  }

  // ---------------------------------------------------------------------
  // The terms of one tick

  function Orient(d: Direction, x: real): real {
    if d == Reverse then -x else x
  }

  /** `setpoint - input`, negated in REVERSE direction. */
  function Error(s: PidState): real {
    Orient(s.direction, s.setpoint - s.input)
  }

  /** `prevInput - input`, negated in REVERSE direction. */
  function DeltaInput(s: PidState): real {
    Orient(s.direction, s.prevInput - s.input)
  }

  function Proportional(s: PidState): real {
    if s.mode == OnRate then 0.0 else Error(s) * s.Kp
  }

  function Derivative(s: PidState): real
    requires s.dtS != 0.0
  {
    DeltaInput(s) * s.Kd / s.dtS
  }

  /** This tick's contribution to the integral sum. */
  function Contribution(s: PidState): real {
    Error(s) * s.Ki * s.dtS
  }

  /** `if (++t >= N) t = 0;` with `t` a 16-bit unsigned counter. */
  function NextCursor(t: uint16, n: nat): (r: uint16)
    ensures n > 0 ==> r < n
    ensures t + 1 < n && t + 1 < TwoTo16 ==> r == t + 1
  {
    var u := (t + 1) % TwoTo16;
    if u >= n then 0 else u
  }

  /** The integral, the window buffer and the cursor after the summation step. */
  datatype Window = Window(integral: real, errors: seq<real>, t: uint16)

  function Accumulate(c: Config, s: PidState): (w: Window)
    requires |s.errors| == c.window
    ensures |w.errors| == c.window
    ensures c.window > 0 ==> w.t < c.window && w.errors == s.errors[w.t := Contribution(s)]
    ensures c.window == 0 ==> w == Window(s.integral + Contribution(s), s.errors, s.t)
  {
    if c.window > 0 then
      var k := NextCursor(s.t, c.window);
      Window(s.integral - s.errors[k] + Contribution(s), s.errors[k := Contribution(s)], k)
    else
      Window(s.integral + Contribution(s), s.errors, s.t)
  }

  /** P + D, clamped to the output limits under `PID_OPTIMIZED_I`. */
  function PartialOutput(c: Config, s: PidState): real
    requires s.dtS != 0.0
  {
    var pd := Proportional(s) + Derivative(s);
    if c.optimizedI then Constrain(pd, s.Lo(), s.Hi()) else pd
  }

  /**
   * The `PID_OPTIMIZED_I` re-clamp: the integral is limited to the headroom
   * that the partial output leaves, scaled by `Ki * dt_s`; skipped when `Ki == 0`.
   */
  function Antiwindup(c: Config, s: PidState, integral: real, partial: real): real
    requires s.dtS != 0.0
  {
    if c.optimizedI && s.Ki != 0.0 then
      Constrain(integral, (s.Lo() - partial) / IntegralScale(s), (s.Hi() - partial) / IntegralScale(s))
    else
      integral
  }

  /** `Ki * dt_s`: what one unit of error adds to the integral in one tick. */
  function IntegralScale(s: PidState): (r: real)
    ensures s.Ki != 0.0 && s.dtS != 0.0 ==> r != 0.0
  {
    s.Ki * s.dtS
  }

  /** ON_RATE folds the rate-proportional term into the integral. */
  function RateFold(s: PidState, integral: real): real {
    if s.mode == OnRate then integral + DeltaInput(s) * s.Kp else integral
  }

  /** The ON_RATE fold, for a caller holding the input change and `Kp` in variables of its own. */
  lemma RateFoldOf(s: PidState, integral: real, delta: real, kp: real)
    requires delta == DeltaInput(s) && kp == s.Kp
    ensures RateFold(s, integral) == if s.mode == OnRate then integral + delta * kp else integral
  {
  }

  /** The integral just before the final anti-windup clamp. */
  function PreClampIntegral(c: Config, s: PidState): real
    requires |s.errors| == c.window && s.dtS != 0.0
  {
    RateFold(s, Antiwindup(c, s, Accumulate(c, s).integral, PartialOutput(c, s)))
  }

  /** `getResult()`: one control tick. */
  function Tick(c: Config, s: PidState): (r: PidState)
    requires s.Valid(c) && s.dtS > 0.0
    ensures r.Valid(c)
    ensures r == s.(prevInput := s.input, integral := r.integral, output := r.output,
                    errors := r.errors, t := r.t)
    ensures s.Lo() <= s.Hi() ==> s.Lo() <= r.output <= s.Hi() && s.Lo() <= r.integral <= s.Hi()
  {
    var w := Accumulate(c, s);
    var partial := PartialOutput(c, s);
    var integral := Constrain(PreClampIntegral(c, s), s.Lo(), s.Hi());
    s.(prevInput := s.input, integral := integral, errors := w.errors, t := w.t,
       output := Constrain(partial + integral, s.Lo(), s.Hi()))
  }

  /** The last stages of a tick: the window step, the integral clamp, the output clamp. */
  lemma TickStages(c: Config, s: PidState)
    requires s.Valid(c) && s.dtS > 0.0
    ensures Tick(c, s).errors == Accumulate(c, s).errors && Tick(c, s).t == Accumulate(c, s).t
    ensures Tick(c, s).integral == Constrain(PreClampIntegral(c, s), s.Lo(), s.Hi())
    ensures Tick(c, s).output == Constrain(PartialOutput(c, s) + Tick(c, s).integral, s.Lo(), s.Hi())
  {
  }

  /** `getResultTimer()`: a tick only when at least `dt` ms have elapsed (wrapping). */
  function TimerTick(c: Config, s: PidState, now: nat): (r: PidState)
    requires s.Valid(c) && s.dtS > 0.0
    ensures r.Valid(c)
    ensures ElapsedSince(now, s.pidTimer) < s.dt ==> r == s
    ensures ElapsedSince(now, s.pidTimer) >= s.dt ==> r.pidTimer == Millis(now) && r.prevInput == s.input
  {
    if ElapsedSince(now, s.pidTimer) >= s.dt then Tick(c, s.(pidTimer := Millis(now))) else s
  }

  /** `getResultNow()`: the interval becomes the measured elapsed time, then one tick. */
  function NowTick(c: Config, s: PidState, now: nat): (r: PidState)
    requires s.Valid(c) && ElapsedSince(now, s.pidTimer) > 0
    ensures r.Valid(c)
    ensures r.dt == ElapsedSince(now, s.pidTimer) && r.IntervalsAgree() && r.pidTimer == Millis(now)
    ensures r.prevInput == s.input
  {
    Tick(c, WithDt(s, ElapsedSince(now, s.pidTimer)).(pidTimer := Millis(now)))
  }

  // ---------------------------------------------------------------------
  // The window buffer

  function Sum(xs: seq<real>): real {
    if xs == [] then 0.0 else xs[0] + Sum(xs[1..])
  }

  lemma {:induction false} SumUpdate(xs: seq<real>, i: nat, v: real)
    requires i < |xs|
    ensures Sum(xs[i := v]) == Sum(xs) - xs[i] + v
  {
    if i > 0 {
      SumUpdate(xs[1..], i - 1, v);
      assert xs[i := v][1..] == xs[1..][i - 1 := v];
    }
  }

  lemma {:induction false} SumZeros(n: nat)
    ensures Sum(seq(n, _ => 0.0)) == 0.0
  {
    if n > 0 {
      SumZeros(n - 1);
      assert seq(n, _ => 0.0)[1..] == seq(n - 1, _ => 0.0);
    }
  }

  /** Advancing the cursor `k` times. */
  function CursorAfter(t: uint16, k: nat, n: nat): uint16 {
    if k == 0 then t else NextCursor(CursorAfter(t, k - 1, n), n)
  }
}
