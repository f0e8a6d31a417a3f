/**
 * Properties of the GyverPID tick: the clamps it applies, the anti-windup
 * bounds, the effect of direction and mode, the integral window bookkeeping
 * and its cursor, and the relation between the three ways of requesting a
 * result.
 */
module PidProperties {
  import opened Arduino
  import opened PidTick

  // ---------------------------------------------------------------------
  // Clamping

  /** How far apart two values lie. */
  function Distance(x: real, y: real): real {
    if x < y then y - x else x - y
  }

  /** The clamped value is the point of the range nearest to the argument. */
  lemma ConstrainIsNearest(amt: real, low: real, high: real, y: real)
    requires low <= y <= high
    ensures Distance(Constrain(amt, low, high), amt) <= Distance(y, amt)
  {
  }

  /** Clamping twice to the same range changes nothing the second time. */
  lemma ConstrainIdempotent(amt: real, low: real, high: real)
    requires low <= high
    ensures Constrain(Constrain(amt, low, high), low, high) == Constrain(amt, low, high)
  {
  }

  /** Clamping to an ordered range preserves the order of its arguments. */
  lemma ConstrainMonotonic(x: real, y: real, low: real, high: real)
    requires low <= high && x <= y
    ensures Constrain(x, low, high) <= Constrain(y, low, high)
  {
  }

  // ---------------------------------------------------------------------
  // Direction and mode

  /** The error and the input change are negated exactly in REVERSE direction. */
  lemma DirectionNegatesTerms(s: PidState)
    ensures Error(s.(direction := Normal)) == s.setpoint - s.input
    ensures DeltaInput(s.(direction := Normal)) == s.prevInput - s.input
    ensures Error(s.(direction := Reverse)) == -(s.setpoint - s.input)
    ensures DeltaInput(s.(direction := Reverse)) == -(s.prevInput - s.input)
  {
  }

  /**
   * A REVERSE controller behaves as a NORMAL one whose setpoint and
   * previous input are mirrored around the current input: the same
   * output, integral and window, only the setpoint differs.
   */
  lemma DirectionSymmetry(c: Config, s: PidState)
    requires s.Valid(c) && s.dtS > 0.0 && s.direction == Reverse
    ensures var mirrored := s.(direction := Normal,
                               setpoint := 2.0 * s.input - s.setpoint,
                               prevInput := 2.0 * s.input - s.prevInput);
            Tick(c, s) == Tick(c, mirrored).(direction := Reverse, setpoint := s.setpoint)
  {
    var mirrored := s.(direction := Normal,
                       setpoint := 2.0 * s.input - s.setpoint,
                       prevInput := 2.0 * s.input - s.prevInput);
    TickDependsOnTerms(c, s, mirrored);
  }

  /**
   * A tick reads the state only through the error, the input change, the
   * gains, the integral, the interval in seconds, the mode, the limits and
   * the window: two states that agree on these tick to the same output,
   * integral and window.
   */
  lemma TickDependsOnTerms(c: Config, s: PidState, s': PidState)
    requires s.Valid(c) && s.dtS > 0.0 && s'.Valid(c) && s'.dtS > 0.0
    requires Error(s) == Error(s') && DeltaInput(s) == DeltaInput(s')
    requires s.Kp == s'.Kp && s.Ki == s'.Ki && s.Kd == s'.Kd && s.integral == s'.integral
    requires s.dtS == s'.dtS && s.mode == s'.mode && s.minOut == s'.minOut && s.maxOut == s'.maxOut
    requires s.errors == s'.errors && s.t == s'.t
    ensures Tick(c, s).output == Tick(c, s').output && Tick(c, s).integral == Tick(c, s').integral
    ensures Tick(c, s).errors == Tick(c, s').errors && Tick(c, s).t == Tick(c, s').t
  {
    StagesDependOnTerms(c, s, s');
    TickStages(c, s);
    TickStages(c, s');
  }

  lemma StagesDependOnTerms(c: Config, s: PidState, s': PidState)
    requires |s.errors| == c.window && s.dtS > 0.0 && s'.dtS > 0.0
    requires Error(s) == Error(s') && DeltaInput(s) == DeltaInput(s')
    requires s.Kp == s'.Kp && s.Ki == s'.Ki && s.Kd == s'.Kd && s.integral == s'.integral
    requires s.dtS == s'.dtS && s.mode == s'.mode && s.minOut == s'.minOut && s.maxOut == s'.maxOut
    requires s.errors == s'.errors && s.t == s'.t
    ensures Accumulate(c, s) == Accumulate(c, s')
    ensures PartialOutput(c, s) == PartialOutput(c, s')
    ensures PreClampIntegral(c, s) == PreClampIntegral(c, s')
  {
    TermsDependOnDeviations(s, s');
    assert s.Lo() == s'.Lo() && s.Hi() == s'.Hi();
    assert Accumulate(c, s) == Accumulate(c, s');
    assert PartialOutput(c, s) == PartialOutput(c, s');
    AntiwindupReadsLimitsAndScale(c, s, s', Accumulate(c, s).integral, PartialOutput(c, s));
  }

  /** P, D and the integral contribution read the state through the error and the input change. */
  lemma TermsDependOnDeviations(s: PidState, s': PidState)
    requires s.dtS > 0.0 && Error(s) == Error(s') && DeltaInput(s) == DeltaInput(s')
    requires s.Kp == s'.Kp && s.Ki == s'.Ki && s.Kd == s'.Kd && s.dtS == s'.dtS && s.mode == s'.mode
    ensures Contribution(s) == Contribution(s')
    ensures Proportional(s) == Proportional(s')
    ensures Derivative(s) == Derivative(s')
  {
  }

  lemma AntiwindupReadsLimitsAndScale(c: Config, s: PidState, s': PidState, integral: real, partial: real)
    requires s.dtS > 0.0 && s'.dtS > 0.0
    requires s.Ki == s'.Ki && s.dtS == s'.dtS && s.minOut == s'.minOut && s.maxOut == s'.maxOut
    ensures Antiwindup(c, s, integral, partial) == Antiwindup(c, s', integral, partial)
  {
    assert IntegralScale(s) == IntegralScale(s');
  }

  /**
   * Switching ON_ERROR to ON_RATE takes `error * Kp` out of the output and
   * adds `delta_input * Kp` to the integral before its clamp; in ON_ERROR no
   * Kp term reaches the integral. Without `PID_OPTIMIZED_I` (which clamps
   * P + D first) this shifts the partial output and the integral by exactly
   * those amounts.
   */
  lemma RateModeMovesProportionalIntoIntegral(c: Config, s: PidState, integral: real)
    requires |s.errors| == c.window && s.dtS != 0.0
    ensures Proportional(s.(mode := OnRate)) == 0.0
    ensures Proportional(s.(mode := OnError)) == Error(s) * s.Kp
    ensures RateFold(s.(mode := OnRate), integral) == integral + DeltaInput(s) * s.Kp
    ensures RateFold(s.(mode := OnError), integral) == integral
    ensures !c.optimizedI ==>
              PartialOutput(c, s.(mode := OnError)) == PartialOutput(c, s.(mode := OnRate)) + Error(s) * s.Kp
    ensures !c.optimizedI ==>
              PreClampIntegral(c, s.(mode := OnRate)) == PreClampIntegral(c, s.(mode := OnError)) + DeltaInput(s) * s.Kp
  {
  }

  // ---------------------------------------------------------------------
  // Anti-windup

  /** Dividing both sides of an inequality by a positive number keeps it, by a negative one reverses it. */
  lemma DivOrder(x: real, y: real, k: real)
    requires x <= y && k != 0.0
    ensures k > 0.0 ==> x / k <= y / k
    ensures k < 0.0 ==> y / k <= x / k
  {
    if k > 0.0 {
      assert x / k <= y / k by { assert (y - x) / k >= 0.0; }
    } else {
      assert y / k <= x / k by { assert (x - y) / k >= 0.0; }
    }
  }

  /**
   * The `PID_OPTIMIZED_I` re-clamp with ordered limits. With `Ki > 0` it
   * keeps the integral within the headroom the partial output leaves:
   * between `(min - partial) / (Ki * dt_s)` and `(max - partial) / (Ki * dt_s)`.
   * With `Ki < 0` that range is inverted, and `constrain` then always
   * returns one of its two ends. With `Ki == 0`, or without the option, the
   * integral passes unchanged.
   */
  lemma AntiwindupBounds(c: Config, s: PidState, integral: real, partial: real)
    requires s.dtS > 0.0 && s.Lo() <= s.Hi()
    ensures !c.optimizedI || s.Ki == 0.0 ==> Antiwindup(c, s, integral, partial) == integral
    ensures c.optimizedI && s.Ki > 0.0 ==>
              (s.Lo() - partial) / IntegralScale(s) <= Antiwindup(c, s, integral, partial)
                                                    <= (s.Hi() - partial) / IntegralScale(s)
    ensures c.optimizedI && s.Ki < 0.0 ==>
              || Antiwindup(c, s, integral, partial) == (s.Lo() - partial) / IntegralScale(s)
              || Antiwindup(c, s, integral, partial) == (s.Hi() - partial) / IntegralScale(s)
  {
    if c.optimizedI && s.Ki != 0.0 {
      var k := IntegralScale(s);
      assert k != 0.0;
      assert s.Ki > 0.0 ==> k > 0.0;
      assert s.Ki < 0.0 ==> k < 0.0;
      DivOrder(s.Lo() - partial, s.Hi() - partial, k);
    }
  }

  /** The stages of a tick without a window and without `PID_OPTIMIZED_I`. */
  lemma PlainStages(c: Config, s: PidState)
    requires |s.errors| == c.window == 0 && s.dtS != 0.0 && !c.optimizedI
    ensures PreClampIntegral(c, s) == RateFold(s, s.integral + Contribution(s))
    ensures PartialOutput(c, s) == Proportional(s) + Derivative(s)
  {
  }

  /**
   * Without a window and without `PID_OPTIMIZED_I`, one tick adds
   * `error * Ki * dt_s` (and `delta_input * Kp` in ON_RATE) to the integral,
   * clamps it, and outputs P + `delta_input * Kd / dt_s` + integral, clamped.
   */
  lemma PlainTick(c: Config, s: PidState)
    requires s.Valid(c) && s.dtS > 0.0 && c.window == 0 && !c.optimizedI
    ensures Tick(c, s).integral == Constrain(RateFold(s, s.integral + Contribution(s)), s.Lo(), s.Hi())
    ensures Tick(c, s).output == Constrain(Proportional(s) + Derivative(s) + Tick(c, s).integral, s.Lo(), s.Hi())
  {
    PlainStages(c, s);
    TickStages(c, s);
  }

  /** With input on the setpoint and not moving, P, D and this tick's contribution vanish. */
  lemma SteadyStages(c: Config, s: PidState)
    requires |s.errors| == c.window == 0 && s.dtS != 0.0 && !c.optimizedI
    requires s.setpoint == s.input == s.prevInput
    ensures PreClampIntegral(c, s) == s.integral
    ensures PartialOutput(c, s) == 0.0
  {
    PlainStages(c, s);
    assert Error(s) == 0.0 && DeltaInput(s) == 0.0;
    assert Contribution(s) == 0.0 by { assert Error(s) * s.Ki == 0.0; }
    assert Derivative(s) == 0.0 by { assert DeltaInput(s) * s.Kd == 0.0; }
  }

  /**
   * The final clamps pick the nearest admissible value: no value within
   * the limits is closer than the new integral to the integral before its
   * clamp, or closer than the new output to P + D plus the new integral.
   */
  lemma TickClampsToNearest(c: Config, s: PidState, y: real)
    requires s.Valid(c) && s.dtS > 0.0 && s.Lo() <= y <= s.Hi()
    ensures Distance(Tick(c, s).integral, PreClampIntegral(c, s)) <= Distance(y, PreClampIntegral(c, s))
    ensures Distance(Tick(c, s).output, PartialOutput(c, s) + Tick(c, s).integral)
            <= Distance(y, PartialOutput(c, s) + Tick(c, s).integral)
  {
    TickStages(c, s);
    ConstrainIsNearest(PreClampIntegral(c, s), s.Lo(), s.Hi(), y);
    ConstrainIsNearest(PartialOutput(c, s) + Tick(c, s).integral, s.Lo(), s.Hi(), y);
  }

  /**
   * With input on the setpoint and not moving, in every configuration, the
   * output equals the new integral: P and D vanish, so only the integral
   * reaches the output. Under `PID_OPTIMIZED_I` the partial output is the
   * clamp of 0, which is 0 only when 0 lies within the limits.
   */
  lemma SteadyOutputIsIntegral(c: Config, s: PidState)
    requires s.Valid(c) && s.dtS > 0.0
    requires s.setpoint == s.input == s.prevInput && s.Lo() <= s.Hi()
    requires c.optimizedI ==> s.Lo() <= 0.0 <= s.Hi()
    ensures Tick(c, s).output == Tick(c, s).integral
  {
    assert Error(s) == 0.0 && DeltaInput(s) == 0.0;
    assert Proportional(s) == 0.0 by { assert Error(s) * s.Kp == 0.0; }
    assert Derivative(s) == 0.0 by { assert DeltaInput(s) * s.Kd == 0.0; }
    assert PartialOutput(c, s) == 0.0;
    TickStages(c, s);
  }

  /**
   * With input on the setpoint and not moving, the output is the clamped
   * integral and the window is untouched.
   */
  lemma SteadyTick(c: Config, s: PidState)
    requires s.Valid(c) && s.dtS > 0.0 && c.window == 0 && !c.optimizedI
    requires s.setpoint == s.input == s.prevInput && s.Lo() <= s.Hi()
    ensures Tick(c, s).output == Tick(c, s).integral == Constrain(s.integral, s.Lo(), s.Hi())
    ensures Tick(c, s).errors == s.errors && Tick(c, s).t == s.t
  {
    SteadyStages(c, s);
    TickStages(c, s);
  }

  /**
   * ... and a further tick changes nothing: the state is a fixed point.
   */
  lemma SteadyState(c: Config, s: PidState)
    requires s.Valid(c) && s.dtS > 0.0 && c.window == 0 && !c.optimizedI
    requires s.setpoint == s.input == s.prevInput && s.Lo() <= s.Hi()
    ensures Tick(c, Tick(c, s)) == Tick(c, s)
  {
    var s1 := Tick(c, s);
    SteadyTick(c, s);
    SteadyTick(c, s1);
    ConstrainIdempotent(s.integral, s.Lo(), s.Hi());
  }

  /** Every slot of the window buffer holds 0. */
  predicate ZeroBuffer(errors: seq<real>) {
    forall j :: 0 <= j < |errors| ==> errors[j] == 0.0
  }

  /**
   * With `Kp == Ki == 0` and a zeroed buffer only the derivative term
   * reaches the stages, and the buffer stays zeroed.
   */
  lemma KickStages(c: Config, s: PidState)
    requires |s.errors| == c.window && s.dtS != 0.0 && ZeroBuffer(s.errors)
    requires s.Kp == 0.0 && s.Ki == 0.0
    ensures ZeroBuffer(Accumulate(c, s).errors)
    ensures PreClampIntegral(c, s) == s.integral
    ensures PartialOutput(c, s) == if c.optimizedI then Constrain(Derivative(s), s.Lo(), s.Hi()) else Derivative(s)
  {
    assert Contribution(s) == 0.0 by { assert Error(s) * s.Ki == 0.0; }
    assert Accumulate(c, s).integral == s.integral by {
      if c.window > 0 {
        assert s.errors[NextCursor(s.t, c.window)] == 0.0;
      }
    }
    assert Proportional(s) == 0.0 by { assert Error(s) * s.Kp == 0.0; }
    assert DeltaInput(s) * s.Kp == 0.0;
  }

  /** A still input has no derivative term. */
  lemma StillInput(s: PidState)
    requires s.prevInput == s.input && s.dtS != 0.0
    ensures Derivative(s) == 0.0
  {
    assert DeltaInput(s) == 0.0;
    assert DeltaInput(s) * s.Kd == 0.0;
  }

  /**
   * With `Kp == Ki == 0`, an empty integral and a zeroed window buffer, a
   * step in the input shows at once as `delta_input * Kd / dt_s` (clamped),
   * and the output falls back to 0 on the next tick if the input holds
   * still. This holds with and without a window and `PID_OPTIMIZED_I`.
   */
  lemma DerivativeKick(c: Config, s: PidState)
    requires s.Valid(c) && s.dtS > 0.0 && ZeroBuffer(s.errors)
    requires s.Kp == 0.0 && s.Ki == 0.0 && s.integral == 0.0 && s.Lo() <= 0.0 <= s.Hi()
    ensures Tick(c, s).output == Constrain(Derivative(s), s.Lo(), s.Hi())
    ensures Tick(c, Tick(c, s)).output == 0.0
  {
    var s1 := Tick(c, s);
    KickStages(c, s);
    TickStages(c, s);
    ConstrainIdempotent(Derivative(s), s.Lo(), s.Hi());
    KickStages(c, s1);
    StillInput(s1);
    TickStages(c, s1);
  }

  /**
   * Kp = 2, Ki = 0.5, Kd = 0, dt = 100 ms, limits [0, 255], setpoint 100
   * and input 0: the first tick outputs 2 * 100 + 0.5 * 100 * 0.1 = 205,
   * with 5 in the integral.
   */
  lemma FirstTickScenario()
    ensures var c := Config(0, false);
            var s := WithDt(Initial(c).(Kp := 2.0, Ki := 0.5, Kd := 0.0, setpoint := 100.0), 100);
            Tick(c, s).integral == 5.0 && Tick(c, s).output == 205.0
  {
  }

  // ---------------------------------------------------------------------
  // The integral window

  /** A windowed tick writes this tick's contribution into the next slot and no other. */
  lemma WindowStep(c: Config, s: PidState)
    requires s.Valid(c) && s.dtS > 0.0 && c.window > 0
    ensures Tick(c, s).t == NextCursor(s.t, c.window) < c.window
    ensures Tick(c, s).errors[Tick(c, s).t] == Contribution(s)
    ensures forall j :: 0 <= j < c.window && j != Tick(c, s).t ==> Tick(c, s).errors[j] == s.errors[j]
  {
  }

  /** The replacement step leaves `integral - sum(errors)` as it was. */
  lemma AccumulateKeepsDifference(c: Config, s: PidState)
    requires |s.errors| == c.window && c.window > 0
    ensures Accumulate(c, s).integral - Sum(Accumulate(c, s).errors) == s.integral - Sum(s.errors)
  {
    var k := NextCursor(s.t, c.window);
    SumUpdate(s.errors, k, Contribution(s));
  }

  /**
   * In ON_ERROR mode without `PID_OPTIMIZED_I`, an integral equal to the
   * window sum is still equal to it after the tick exactly when the
   * anti-windup clamp does not bite: a clamp that bites leaves the buffer
   * holding more (or less) than the integral.
   */
  lemma TickKeepsWindowSum(c: Config, s: PidState)
    requires s.Valid(c) && s.dtS > 0.0 && c.window > 0 && !c.optimizedI && s.mode == OnError
    requires s.integral == Sum(s.errors) && s.Lo() <= s.Hi()
    ensures Tick(c, s).integral == Sum(Tick(c, s).errors)
        <==> s.Lo() <= Accumulate(c, s).integral <= s.Hi()
  {
    AccumulateKeepsDifference(c, s);
    assert PreClampIntegral(c, s) == Accumulate(c, s).integral;
    TickStages(c, s);
  }

  /** A fresh object starts with its integral equal to its (all-zero) window sum. */
  lemma InitialWindowSum(c: Config)
    ensures Initial(c).integral == Sum(Initial(c).errors)
  {
    SumZeros(c.window);
  }

  /**
   * For windows of at most 2^16 slots the cursor advances by one slot per
   * tick and wraps from the last slot to slot 0.
   */
  lemma {:induction false} CursorAfterSteps(t: uint16, k: nat, n: nat)
    requires 0 < n <= TwoTo16 && t < n && k <= n
    ensures CursorAfter(t, k, n) == if t + k < n then t + k else t + k - n
  {
    if k > 0 {
      CursorAfterSteps(t, k - 1, n);
    }
  }

  /**
   * Within `n` consecutive ticks the cursor visits `n` distinct slots and
   * is back where it started after `n`: every contribution is replaced
   * exactly `n` ticks after it was written.
   */
  lemma CursorCyclesThroughWindow(t: uint16, n: nat)
    requires 0 < n <= TwoTo16 && t < n
    ensures forall i, j :: 0 <= i < j < n ==> CursorAfter(t, i, n) != CursorAfter(t, j, n)
    ensures CursorAfter(t, n, n) == t
  {
    forall i, j | 0 <= i < j < n
      ensures CursorAfter(t, i, n) != CursorAfter(t, j, n)
    {
      CursorAfterSteps(t, i, n);
      CursorAfterSteps(t, j, n);
    }
    CursorAfterSteps(t, n, n);
  }

  /**
   * The cursor is a 16-bit counter: after slot 65535 it returns to slot 0
   * whatever the window size, so slots past 65535 are never written.
   */
  lemma CursorWrapsAtSixteenBits(n: nat)
    requires n > TwoTo16 - 1
    ensures NextCursor(TwoTo16 - 1, n) == 0
  {
  }

  // ---------------------------------------------------------------------
  // Timer-gated and elapsed-time ticks

  /**
   * A second `getResultTimer` call less than `dt` ms (in wrapping
   * arithmetic) after the timer was last reset changes nothing and
   * returns the same output as the first.
   */
  lemma TimerHoldsWithinInterval(c: Config, s: PidState, now1: nat, now2: nat)
    requires s.Valid(c) && s.dtS > 0.0
    requires ElapsedSince(now2, TimerTick(c, s, now1).pidTimer) < s.dt
    ensures TimerTick(c, TimerTick(c, s, now1), now2) == TimerTick(c, s, now1)
    ensures TimerTick(c, TimerTick(c, s, now1), now2).output == TimerTick(c, s, now1).output
  {
  }

  /** When the timer fires, it runs exactly the tick `getResult` would, after resetting the timer. */
  lemma TimerFiresOneTick(c: Config, s: PidState, now: nat)
    requires s.Valid(c) && s.dtS > 0.0 && ElapsedSince(now, s.pidTimer) >= s.dt
    ensures TimerTick(c, s, now).output == Tick(c, s).output
    ensures TimerTick(c, s, now) == Tick(c, s).(pidTimer := Millis(now))
  {
    TickDependsOnTerms(c, s.(pidTimer := Millis(now)), s);
  }

  /**
   * When exactly `dt` ms have elapsed, `getResultNow` and `getResultTimer`
   * agree: re-measuring the interval leaves both of its representations as they were.
   */
  lemma NowTickMatchesTimerTickOnSchedule(c: Config, s: PidState, now: nat)
    requires s.Valid(c) && s.IntervalsAgree() && s.dtS > 0.0 && ElapsedSince(now, s.pidTimer) == s.dt
    ensures NowTick(c, s, now) == TimerTick(c, s, now)
  {
    assert WithDt(s, s.dt) == s;
  }
}
