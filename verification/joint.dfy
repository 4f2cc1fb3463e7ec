/** src/server/orazio_joints_internal.c: ramp, PID with anti-windup and dead zone, in int16_t arithmetic. */
module Joint {
  import opened Bytes
  import opened Int16

  const JOINT_DISABLED: byte := 0
  const JOINT_PWM: byte := 1
  const JOINT_PID: byte := 2

  datatype Params = Params(
    kp: int, ki: int, kd: int, maxI: int, minPwm: int, maxPwm: int, maxSpeed: int, slope: int)
  {
    /** Limits are magnitudes. */
    predicate Valid() {
      && Fits(kp) && Fits(ki) && Fits(kd)
      && 0 <= maxI <= MAX && 0 <= minPwm <= MAX && 0 <= maxPwm <= MAX && 0 <= maxSpeed <= MAX && 0 <= slope <= MAX
    }
  }

  datatype Control = Control(mode: byte, speed: int)

  /** The fields of JointController and JointInfo that the handler writes. */
  datatype State = State(
    output: int, rampReference: int, errorIntegral: int, error: int, previousError: int,
    mode: byte, encoderPosition: int, encoderSpeed: int, desiredSpeed: int, pwm: int)

  /** `v`, or the limit of its sign where its magnitude exceeds `value`. */
  function Clamp(v: int, value: int): (r: int)
    ensures value >= 0 ==> Abs(r) <= value && (Abs(v) <= value ==> r == v)
    ensures value >= 0 && Abs(v) > value ==> r == (if v > 0 then value else -value)
  {
    if v > value then value else if v < -value then -value else v
  }

  /** kp*error + ki*integral + kd*d_error on int16_t. */
  function WrappedGain(p: Params, error: int, integral: int, dError: int): int {
    Wrap(Wrap(Wrap(p.kp * error) + Wrap(p.ki * integral)) + Wrap(p.kd * dError))
  }

  function Gain(p: Params, error: int, integral: int, dError: int): int {
    p.kp * error + p.ki * integral + p.kd * dError
  }

  /** The PID branch on int16_t; every operation wraps. */
  function Pid(p: Params, speed: int, s: State): State {
    var desired := Clamp(speed, p.maxSpeed);
    var error := Clamp(Wrap(desired - s.encoderSpeed), p.slope);
    var ramp := Wrap(s.encoderSpeed + error);
    var integral := Clamp(Wrap(s.errorIntegral + error), p.maxI);
    var dError := Wrap(error - s.previousError);
    var output := Clamp(Wrap(ramp + TruncDiv(WrappedGain(p, error, integral, dError), 32)), p.maxPwm);
    s.(desiredSpeed := desired, error := error, rampReference := ramp, errorIntegral := integral,
       output := if output < p.minPwm && output > -p.minPwm then 0 else output, previousError := error)
  }

  /** The PID branch over unbounded integers: the control law the code means. */
  function PidLaw(p: Params, speed: int, s: State): State {
    var desired := Clamp(speed, p.maxSpeed);
    var error := Clamp(desired - s.encoderSpeed, p.slope);
    var ramp := s.encoderSpeed + error;
    var integral := Clamp(s.errorIntegral + error, p.maxI);
    var output := Clamp(ramp + TruncDiv(Gain(p, error, integral, error - s.previousError), 32), p.maxPwm);
    s.(desiredSpeed := desired, error := error, rampReference := ramp, errorIntegral := integral,
       output := if Abs(output) < p.minPwm then 0 else output, previousError := error)
  }

  /** What JointController_handle reports before it looks at the mode. */
  function Report(control: Control, enc: int, s: State): State {
    s.(encoderSpeed := Wrap(enc - s.encoderPosition), encoderPosition := enc, mode := control.mode, pwm := s.output)
  }

  /** JointController_handle. */
  function HandleTick(p: Params, control: Control, enc: int, s: State): (r: State)
    ensures r.encoderSpeed == Wrap(enc - s.encoderPosition) && r.encoderPosition == enc
  {
    var t := Report(control, enc, s);
    if control.mode == JOINT_DISABLED then t.(output := 0, errorIntegral := 0)
    else if control.mode == JOINT_PWM then t.(output := control.speed)
    else if control.mode == JOINT_PID then Pid(p, control.speed, t)
    else t
  }

  class JointControl {
    var mode: byte
    var speed: int

    constructor ()
      ensures mode == JOINT_DISABLED && speed == 0
    {
      mode, speed := JOINT_DISABLED, 0;
    }

    function View(): Control
      reads this
    {
      Control(mode, speed)
    }
  }

  class JointInfo {
    var mode: byte
    var encoderPosition: int
    var encoderSpeed: int
    var desiredSpeed: int
    var pwm: int

    constructor ()
      ensures encoderPosition == 0 && encoderSpeed == 0 && mode == JOINT_DISABLED && desiredSpeed == 0 && pwm == 0
    {
      mode, encoderPosition, encoderSpeed, desiredSpeed, pwm := JOINT_DISABLED, 0, 0, 0, 0;
    }
  }

  /** The controller after the memset of Orazio_jointsInit and with a cleared status. */
  const INITIAL := State(0, 0, 0, 0, 0, JOINT_DISABLED, 0, 0, 0, 0)

  class JointController {
    var params: Params
    const control: JointControl
    const status: JointInfo
    var output: int
    var rampReference: int
    var errorIntegral: int
    var error: int
    var previousError: int

    ghost function View(): State
      reads this, status
    {
      State(output, rampReference, errorIntegral, error, previousError,
            status.mode, status.encoderPosition, status.encoderSpeed, status.desiredSpeed, status.pwm)
    }

    constructor (params: Params, control: JointControl, status: JointInfo)
      ensures this.params == params && this.control == control && this.status == status
      ensures output == 0 && errorIntegral == 0 && previousError == 0 && error == 0 && rampReference == 0
    {
      this.params, this.control, this.status := params, control, status;
      output, rampReference, errorIntegral, error, previousError := 0, 0, 0, 0, 0;
    }

    method Handle(enc: int)
      modifies this, status
      ensures View() == HandleTick(params, control.View(), enc, old(View()))
      ensures params == old(params)
    {
      hide Wrap, Pid;
      status.encoderSpeed := Wrap(enc - status.encoderPosition);
      status.encoderPosition := enc;
      status.mode := control.mode;
      status.pwm := output;
      if control.mode == JOINT_DISABLED {
        output := 0;
        errorIntegral := 0;
      } else if control.mode == JOINT_PWM {
        output := control.speed;
      } else if control.mode == JOINT_PID {
        PidStep(control.speed);
      }
    }

    method PidStep(speed: int)
      modifies this, status
      ensures View() == Pid(params, speed, old(View())) && params == old(params)
    {
      hide Wrap, Clamp, TruncDiv, WrappedGain;
      // commands beyond the top speed are cut
      status.desiredSpeed := Clamp(speed, params.maxSpeed);
      // approach it by at most one slope per tick
      error := Clamp(Wrap(status.desiredSpeed - status.encoderSpeed), params.slope);
      rampReference := Wrap(status.encoderSpeed + error);
      // gains, with anti-windup
      errorIntegral := Wrap(errorIntegral + error);
      errorIntegral := Clamp(errorIntegral, params.maxI);
      var dError := Wrap(error - previousError);
      output := Wrap(rampReference + TruncDiv(WrappedGain(params, error, errorIntegral, dError), 32));
      output := Clamp(output, params.maxPwm);
      if output < params.minPwm && output > -params.minPwm {
        output := 0;
      }
      previousError := error;
    }
  }

  /** The parameters in src/server/orazio_globals.c. */
  const DEFAULT_PARAMS := Params(255, 32, 0, 255, 0, 255, 100, 10)

  // ---- runs with constant limits

  /** One timer tick: the control in force and the encoder sample. */
  datatype Tick = Tick(control: Control, enc: int)

  function Run(p: Params, ticks: seq<Tick>): State {
    if |ticks| == 0 then INITIAL
    else
      var t := ticks[|ticks| - 1];
      HandleTick(p, t.control, t.enc, Run(p, ticks[..|ticks| - 1]))
  }

  predicate Limited(p: Params, s: State) {
    Abs(s.errorIntegral) <= p.maxI && Abs(s.previousError) <= p.slope && Abs(s.error) <= p.slope
  }

  /** Anti-windup and ramp: the integral never exceeds max_i, nor the remembered error the slope, in any run. */
  lemma {:induction false} AlwaysLimited(p: Params, ticks: seq<Tick>)
    requires p.Valid()
    ensures Limited(p, Run(p, ticks))
  {
    if |ticks| > 0 {
      AlwaysLimited(p, ticks[..|ticks| - 1]);
    }
  }

  predicate EndsDisabled(ticks: seq<Tick>) {
    |ticks| > 0 && ticks[|ticks| - 1].control.mode == JOINT_DISABLED
  }

  /**
   * Disabling a joint forgets its error integral: after a disabled tick and `after` more ticks of any mode the
   * integral is at most one slope for each of them, whatever the joint did before.
   */
  lemma {:induction false} DisablingClears(p: Params, before: seq<Tick>, after: seq<Tick>)
    requires p.Valid() && EndsDisabled(before)
    ensures Abs(Run(p, before + after).errorIntegral) <= |after| * p.slope
    ensures Abs(Run(p, before + after).errorIntegral) <= p.maxI
  {
    AlwaysLimited(p, before + after);
    if |after| == 0 {
      assert before + after == before;
      Cleared(p, before);
    } else {
      var n := |after| - 1;
      RunOneMore(p, before, after);
      OneMoreSlope(n, p.slope);
      hide Run, HandleTick, Abs;
      DisablingClears(p, before, after[..n]);
      GrowsBySlope(p, after[n], Run(p, before + after[..n]), n * p.slope);
    }
  }

  lemma RunOneMore(p: Params, before: seq<Tick>, after: seq<Tick>)
    requires |after| > 0
    ensures var n := |after| - 1;
            Run(p, before + after) == HandleTick(p, after[n].control, after[n].enc, Run(p, before + after[..n]))
  {
    hide HandleTick;
    assert (before + after)[..|before| + |after| - 1] == before + after[..|after| - 1];
  }

  lemma OneMoreSlope(n: nat, slope: nat)
    ensures 0 <= n * slope && (n + 1) * slope == n * slope + slope
  {
  }

  lemma Cleared(p: Params, ticks: seq<Tick>)
    requires EndsDisabled(ticks)
    ensures Run(p, ticks).errorIntegral == 0 && Run(p, ticks).output == 0
  {
  }

  lemma GrowsBySlope(p: Params, tick: Tick, s: State, bound: nat)
    requires p.Valid() && Abs(s.errorIntegral) <= bound
    ensures Abs(HandleTick(p, tick.control, tick.enc, s).errorIntegral) <= bound + p.slope
  {
    hide TruncDiv, WrappedGain;
  }

  /** The output of the branch from the sum of its gains: clamped, and 0 inside the dead zone. */
  function Output(p: Params, sum: int): int {
    var output := Clamp(sum, p.maxPwm);
    if Abs(output) < p.minPwm then 0 else output
  }

  /** The ramped error of a commanded speed when the wheel turns at speed `v`. */
  function RampedError(p: Params, speed: int, v: int): int {
    Clamp(Clamp(speed, p.maxSpeed) - v, p.slope)
  }

  /**
   * A joint whose wheel has turned at the constant speed `v` for `n` PID ticks: the error is `e`, and the errors have
   * summed up to `integral`.
   */
  predicate Turning(p: Params, s: State, v: int, e: int, integral: int, n: nat, previous: int) {
    && s.errorIntegral == integral && s.previousError == (if n == 0 then previous else e)
    && (n > 0 ==> s.encoderSpeed == v && s.rampReference == v + e)
    && (n > 0 ==> s.output == Output(p, v + e + TruncDiv(Gain(p, e, integral, if n == 1 then e - previous else 0), 32)))
  }

  /** `ticks` all carry one PID command, and after each of them the wheel has been seen to turn at speed `v`. */
  predicate ConstantSpeed(p: Params, before: seq<Tick>, ticks: seq<Tick>, speed: int, v: int) {
    && (forall k :: 0 <= k < |ticks| ==> ticks[k].control == Control(JOINT_PID, speed))
    && forall k :: 0 < k <= |ticks| ==> Run(p, before + ticks[..k]).encoderSpeed == v
  }

  /**
   * The control law over time: a joint switched from disabled to a speed while its wheel turns at the constant speed
   * `v` (0 if it is blocked) has after `n` ticks summed up `n` times the ramped error.  Its output is the ramp, which
   * leads the wheel toward the command, plus the gains: the proportional one acts on the error, the integral one on
   * that sum and the derivative one on the first tick alone.
   */
  lemma {:induction false} SteadyJoint(p: Params, before: seq<Tick>, ticks: seq<Tick>, speed: int, v: int)
    requires Safe(p, Abs(v)) && EndsDisabled(before) && |ticks| * p.slope <= p.maxI
    requires ConstantSpeed(p, before, ticks, speed, v)
    ensures var e := RampedError(p, speed, v);
            Turning(p, Run(p, before + ticks), v, e, |ticks| * e, |ticks|, Run(p, before).previousError)
  {
    assert p.slope >= 0;
    hide HandleTick, Safe, RampedError;
    if |ticks| == 0 {
      assert before + ticks == before;
      Cleared(p, before);
    } else {
      var n := |ticks| - 1;
      SteadyBefore(p, before, ticks, speed, v);
      OneMoreSlope(n, p.slope);
      hide Turning, Run, Limited, ConstantSpeed, EndsDisabled, Abs;
      SteadyJoint(p, before, ticks[..n], speed, v);
      AlwaysLimited(p, before + ticks[..n]);
      SteadyTick(p, ticks[n], Run(p, before + ticks[..n]), v, n, Run(p, before).previousError);
    }
  }

  lemma SteadyBefore(p: Params, before: seq<Tick>, ticks: seq<Tick>, speed: int, v: int)
    requires ConstantSpeed(p, before, ticks, speed, v) && |ticks| > 0
    ensures var n := |ticks| - 1;
            && ConstantSpeed(p, before, ticks[..n], speed, v) && ticks[n].control == Control(JOINT_PID, speed)
            && Run(p, before + ticks) == HandleTick(p, ticks[n].control, ticks[n].enc, Run(p, before + ticks[..n]))
            && HandleTick(p, ticks[n].control, ticks[n].enc, Run(p, before + ticks[..n])).encoderSpeed == v
  {
    var n := |ticks| - 1;
    SteadyPrefix(p, before, ticks, speed, v);
    hide HandleTick;
    RunOneMore(p, before, ticks);
    hide Run;
    assert ticks[..|ticks|] == ticks;
    assert Run(p, before + ticks[..|ticks|]).encoderSpeed == v;
  }

  lemma SteadyPrefix(p: Params, before: seq<Tick>, ticks: seq<Tick>, speed: int, v: int)
    requires ConstantSpeed(p, before, ticks, speed, v) && |ticks| > 0
    ensures ConstantSpeed(p, before, ticks[..|ticks| - 1], speed, v)
  {
    hide HandleTick, Run;
    var shorter := ticks[..|ticks| - 1];
    forall k | 0 < k <= |shorter|
      ensures Run(p, before + shorter[..k]).encoderSpeed == v
    {
      assert shorter[..k] == ticks[..k];
    }
  }

  lemma SteadyTick(p: Params, tick: Tick, s: State, v: int, n: nat, previous: int)
    requires Safe(p, Abs(v)) && Limited(p, s) && (n + 1) * p.slope <= p.maxI && tick.control.mode == JOINT_PID
    requires HandleTick(p, tick.control, tick.enc, s).encoderSpeed == v
    requires var e := RampedError(p, tick.control.speed, v); Turning(p, s, v, e, n * e, n, previous)
    ensures var e := RampedError(p, tick.control.speed, v);
            Turning(p, HandleTick(p, tick.control, tick.enc, s), v, e, (n + 1) * e, n + 1, previous)
  {
    var e := RampedError(p, tick.control.speed, v);
    assert Abs(e) <= p.slope;
    IntegralNotLimited(n + 1, e, p.slope, p.maxI);
    hide Safe, Limited, Clamp, RampedError, Turning, HandleTick;
    TickTurning(p, tick, s, v, n * e, (n + 1) * e, n, previous);
  }

  lemma TickTurning(p: Params, tick: Tick, s: State, v: int, before: int, integral: int, n: nat, previous: int)
    requires Safe(p, Abs(v)) && Limited(p, s) && tick.control.mode == JOINT_PID
    requires HandleTick(p, tick.control, tick.enc, s).encoderSpeed == v
    requires Turning(p, s, v, RampedError(p, tick.control.speed, v), before, n, previous)
    requires Clamp(before + RampedError(p, tick.control.speed, v), p.maxI) == integral
    ensures Turning(p, HandleTick(p, tick.control, tick.enc, s), v, RampedError(p, tick.control.speed, v), integral, n + 1,
                    previous)
  {
    var t := Report(tick.control, tick.enc, s);
    assert t.encoderSpeed == v;
    PidIsLaw(p, tick.control.speed, t, Abs(v));
    hide Safe, Pid, PidLaw, TruncDiv, Limited, Gain, Clamp, RampedError, Wrap, Output;
    LawAtSpeed(p, tick.control.speed, t, before, integral);
  }

  lemma LawAtSpeed(p: Params, speed: int, s: State, before: int, integral: int)
    requires s.errorIntegral == before && Clamp(before + RampedError(p, speed, s.encoderSpeed), p.maxI) == integral
    ensures var t, e := PidLaw(p, speed, s), RampedError(p, speed, s.encoderSpeed);
            && t.errorIntegral == integral && t.encoderSpeed == s.encoderSpeed && t.previousError == e
            && t.rampReference == s.encoderSpeed + e
            && t.output == Output(p, s.encoderSpeed + e + TruncDiv(Gain(p, e, integral, e - s.previousError), 32))
  {
    hide Clamp, TruncDiv, Gain;
  }

  lemma IntegralNotLimited(n: nat, e: int, slope: int, max: int)
    requires n > 0 && Abs(e) <= slope && n * slope <= max
    ensures (n - 1) * e + e == n * e && Clamp(n * e, max) == n * e
  {
    ProductBound(n, e, slope);
  }

  /**
   * After a PID tick the output is within max_pwm and either 0 or at least min_pwm; after a disabled one
   * it is 0, after a PWM one the speed commanded, and an unknown mode leaves it.  The status shows the mode, the
   * output that was in force and the command cut to the top speed; only PID ticks and disabling touch the integral.
   */
  lemma OutputLimited(p: Params, ticks: seq<Tick>)
    requires p.Valid() && |ticks| > 0
    ensures var mode, output := ticks[|ticks| - 1].control.mode, Run(p, ticks).output;
            && (mode == JOINT_PID ==> Abs(output) <= p.maxPwm && (output == 0 || Abs(output) >= p.minPwm))
            && (mode == JOINT_DISABLED ==> output == 0)
            && (mode == JOINT_PWM ==> output == ticks[|ticks| - 1].control.speed)
            && (mode > JOINT_PID ==> output == Run(p, ticks[..|ticks| - 1]).output)
    ensures var control, s, t := ticks[|ticks| - 1].control, Run(p, ticks[..|ticks| - 1]), Run(p, ticks);
            && t.mode == control.mode && t.pwm == s.output
            && (t.mode == JOINT_PID ==> t.desiredSpeed == Clamp(control.speed, p.maxSpeed))
            && (t.mode != JOINT_PID ==> t.desiredSpeed == s.desiredSpeed && t.previousError == s.previousError)
            && (t.mode !in [JOINT_PID, JOINT_DISABLED] ==> t.errorIntegral == s.errorIntegral)
  {
  }

  /** The most the three gains can contribute. */
  function GainBound(p: Params): nat
    requires p.Valid()
  {
    Abs(p.kp) * p.slope + Abs(p.ki) * p.maxI + Abs(p.kd) * (2 * p.slope)
  }

  /** Parameters for which no int16_t intermediate overflows at encoder speeds up to `speed`. */
  predicate Safe(p: Params, speed: nat) {
    && p.Valid()
    && p.maxI + p.slope <= MAX
    && 2 * p.slope <= MAX
    && p.maxSpeed + speed <= MAX
    && GainBound(p) <= MAX
    && speed + p.slope + GainBound(p) / 32 <= MAX
  }

  /** The gain sum stays within its bound, so neither it nor a partial sum wraps. */
  lemma GainFits(p: Params, error: int, integral: int, dError: int)
    requires p.Valid() && GainBound(p) <= MAX
    requires Abs(error) <= p.slope && Abs(integral) <= p.maxI && Abs(dError) <= 2 * p.slope
    ensures WrappedGain(p, error, integral, dError) == Gain(p, error, integral, dError)
    ensures Abs(Gain(p, error, integral, dError)) <= GainBound(p)
  {
    ProductBound(p.kp, error, p.slope);
    ProductBound(p.ki, integral, p.maxI);
    ProductBound(p.kd, dError, 2 * p.slope);
    SumFits(p.kp * error, p.ki * integral, p.kd * dError,
            Abs(p.kp) * p.slope, Abs(p.ki) * p.maxI, Abs(p.kd) * (2 * p.slope));
  }

  lemma SumFits(x: int, y: int, z: int, a: nat, b: nat, c: nat)
    requires Abs(x) <= a && Abs(y) <= b && Abs(z) <= c && a + b + c <= MAX
    ensures Wrap(Wrap(Wrap(x) + Wrap(y)) + Wrap(z)) == x + y + z
    ensures Abs(x + y + z) <= a + b + c
  {
  }

  lemma QuotientBound(x: int, bound: nat)
    requires Abs(x) <= bound
    ensures Abs(TruncDiv(x, 32)) <= bound / 32
  {
  }

  /** Step by step, nothing the PID branch computes wraps. */
  lemma PidFits(p: Params, speed: int, s: State, bound: nat)
    requires Safe(p, bound) && Limited(p, s) && Abs(s.encoderSpeed) <= bound
    ensures var desired := Clamp(speed, p.maxSpeed);
            var error := Clamp(desired - s.encoderSpeed, p.slope);
            var integral := Clamp(s.errorIntegral + error, p.maxI);
            var dError := error - s.previousError;
            var sum := s.encoderSpeed + error + TruncDiv(Gain(p, error, integral, dError), 32);
            && Wrap(desired - s.encoderSpeed) == desired - s.encoderSpeed
            && Wrap(s.encoderSpeed + error) == s.encoderSpeed + error
            && Wrap(s.errorIntegral + error) == s.errorIntegral + error
            && Wrap(dError) == dError
            && WrappedGain(p, error, integral, dError) == Gain(p, error, integral, dError)
            && Wrap(sum) == sum
  {
    hide WrappedGain, Gain, GainBound, TruncDiv, Wrap, Clamp;
    ErrorFits(p, speed, s, bound);
    hide Safe;
    var error := Clamp(Clamp(speed, p.maxSpeed) - s.encoderSpeed, p.slope);
    var integral := Clamp(s.errorIntegral + error, p.maxI);
    LawFits(p, error, integral, s, bound);
  }

  lemma ErrorFits(p: Params, speed: int, s: State, bound: nat)
    requires Safe(p, bound) && Limited(p, s) && Abs(s.encoderSpeed) <= bound
    ensures var desired := Clamp(speed, p.maxSpeed);
            var error := Clamp(desired - s.encoderSpeed, p.slope);
            && Abs(error) <= p.slope
            && Wrap(desired - s.encoderSpeed) == desired - s.encoderSpeed
            && Wrap(s.encoderSpeed + error) == s.encoderSpeed + error
            && Wrap(s.errorIntegral + error) == s.errorIntegral + error
            && Wrap(error - s.previousError) == error - s.previousError
            && Abs(Clamp(s.errorIntegral + error, p.maxI)) <= p.maxI
  {
    hide GainBound, Wrap, Clamp;
  }

  lemma LawFits(p: Params, error: int, integral: int, s: State, bound: nat)
    requires Safe(p, bound) && Limited(p, s) && Abs(s.encoderSpeed) <= bound
    requires Abs(error) <= p.slope && Abs(integral) <= p.maxI
    ensures var dError := error - s.previousError;
            var sum := s.encoderSpeed + error + TruncDiv(Gain(p, error, integral, dError), 32);
            WrappedGain(p, error, integral, dError) == Gain(p, error, integral, dError) && Wrap(sum) == sum
  {
    hide WrappedGain, Gain, GainBound, TruncDiv, Wrap;
    GainFits(p, error, integral, error - s.previousError);
    QuotientBound(Gain(p, error, integral, error - s.previousError), GainBound(p));
  }

  lemma DeadZone(output: int, min: int)
    ensures Abs(output) < min <==> output < min && output > -min
  {
  }

  /** One PID step from a limited state computes the control law, with no wrap-around anywhere. */
  lemma PidIsLaw(p: Params, speed: int, s: State, bound: nat)
    requires Safe(p, bound) && Limited(p, s) && Abs(s.encoderSpeed) <= bound
    ensures Pid(p, speed, s) == PidLaw(p, speed, s)
  {
    hide Safe, Limited, WrappedGain, Gain, TruncDiv, Wrap, Clamp, Abs;
    PidFits(p, speed, s, bound);
    var error := Clamp(Clamp(speed, p.maxSpeed) - s.encoderSpeed, p.slope);
    var integral := Clamp(s.errorIntegral + error, p.maxI);
    var gain := Gain(p, error, integral, error - s.previousError);
    DeadZone(Clamp(s.encoderSpeed + error + TruncDiv(gain, 32), p.maxPwm), p.minPwm);
  }

  /** The shipped parameters never overflow unless an encoder moves more than 32423 ticks in one period. */
  lemma DefaultsSafe(speed: nat)
    ensures Safe(DEFAULT_PARAMS, speed) <==> speed <= 32423
  {
    assert GainBound(DEFAULT_PARAMS) == 2550 + 8160 + 0;
  }

  /** The run under the control law, over unbounded integers except for the encoder difference. */
  function RunLaw(p: Params, ticks: seq<Tick>): State {
    if |ticks| == 0 then INITIAL
    else
      var tick, s := ticks[|ticks| - 1], RunLaw(p, ticks[..|ticks| - 1]);
      if tick.control.mode != JOINT_PID then HandleTick(p, tick.control, tick.enc, s)
      else PidLaw(p, tick.control.speed, Report(tick.control, tick.enc, s))
  }

  /** In every run whose encoder speeds stay within `speed`, the int16_t controller is the control law. */
  lemma {:induction false} NoOverflow(p: Params, ticks: seq<Tick>, speed: nat)
    requires Safe(p, speed)
    requires forall k :: 0 <= k <= |ticks| ==> Abs(Run(p, ticks[..k]).encoderSpeed) <= speed
    ensures Run(p, ticks) == RunLaw(p, ticks)
  {
    if |ticks| > 0 {
      var n := |ticks| - 1;
      assert forall k :: 0 <= k <= n ==> ticks[..n][..k] == ticks[..k];
      hide Pid, PidLaw, Wrap, GainBound;
      NoOverflow(p, ticks[..n], speed);
      AlwaysLimited(p, ticks[..n]);
      assert ticks[..n + 1] == ticks;
      var tick, s := ticks[n], Run(p, ticks[..n]);
      if tick.control.mode == JOINT_PID {
        PidIsLaw(p, tick.control.speed, Report(tick.control, tick.enc, s), speed);
      }
    }
  }
}
