// The PID controller with anti-wind-up of the drone application. Errors are
// doubles that may be NaN; the wall clock is the input `now` (milliseconds).

module Controller {
  import opened Doubles

  /** The default gains and actuator limits of the constructor. */
  const DefaultKP: real := 1.0
  const DefaultKI: real := 0.0
  const DefaultKD: real := 0.0
  const DefaultUMax: real := DblMax

  /**
   * The lower actuator limit as the constructor computes it: a given upper
   * limit with the lower limit left at its default `numeric_limits::min()`
   * gives symmetric limits; otherwise the lower limit is taken as given.
   */
  function UMinAsWritten(uMaxArg: real, uMinArg: real): real {
    if uMaxArg != DblMax && uMinArg == DblMin then -uMaxArg else uMinArg
  }

  /**
   * `numeric_limits::min()` is the smallest positive double, not the most
   * negative one: with both limits at their defaults the lower limit stays
   * positive, so the controller can never command a negative actuation; with
   * gain 1 an error of -1 yields the tiny positive `DblMin`.
   */
  lemma DefaultLimitsAsWrittenNeverNegative(error: Dbl)
    ensures UMinAsWritten(DefaultUMax, DblMin) == DblMin
    ensures Clamp(UMinAsWritten(DefaultUMax, DblMin), DefaultUMax, Mul(Num(DefaultKP), error)) > 0.0
    ensures Clamp(UMinAsWritten(DefaultUMax, DblMin), DefaultUMax, Mul(Num(DefaultKP), Num(-1.0))) == DblMin
  {
    DblMinBelowMax();
  }

  lemma DblMinBelowMax()
    ensures 0.0 < DblMin < 1.0 < DblMax
  {
  }

  /** The default lower limit evidently intended: the most negative double. */
  const DefaultUMin: real := -DblMax

  /** The lower actuator limit with the intended default `-DblMax` as the "not given" sentinel. */
  function UMinIntended(uMaxArg: real, uMinArg: real): (r: real)
    ensures uMaxArg != DblMax && uMinArg == DefaultUMin ==> r == -uMaxArg
    ensures uMaxArg == DblMax || uMinArg != DefaultUMin ==> r == uMinArg
  {
    if uMaxArg != DblMax && uMinArg == DefaultUMin then -uMaxArg else uMinArg
  }

  /**
   * With the intended defaults the limits are the whole range of doubles, so
   * no actuation within it is clamped; and when an upper limit is given, the
   * intended and the written constructor agree on the symmetric lower limit.
   */
  lemma DefaultLimitsIntended(u: real, uMaxArg: real)
    ensures UMinIntended(DefaultUMax, DefaultUMin) == -DblMax
    ensures -DblMax <= u <= DblMax ==> Clamp(UMinIntended(DefaultUMax, DefaultUMin), DefaultUMax, Num(u)) == u
    ensures uMaxArg != DblMax ==> UMinIntended(uMaxArg, DefaultUMin) == UMinAsWritten(uMaxArg, DblMin) == -uMaxArg
  {
    DblMinBelowMax();
  }

  /** `uP + uI + uD`, the unlimited actuation of a later call `s` seconds after the previous one. */
  function Unlimited(kP: real, kI: real, kD: real, integral: real, previous: Dbl, error: Dbl, s: real): Dbl
    requires s != 0.0
  {
    Add(Add(Mul(Num(kP), error), Num(kI * integral)), DivBy(Mul(Num(kD), Sub(error, previous)), s))
  }

  /** The anti-wind-up condition: integrate unless disabled, or saturated in the error's direction. */
  predicate Integrates(disable: bool, uUnlim: Dbl, uLim: real, error: Dbl) {
    !disable && (Same(uUnlim, Num(uLim)) || Less(Mul(uUnlim, error), Num(0.0)))
  }

  /**
   * With ordered limits the integrator runs exactly when it is enabled and the
   * unlimited actuation is a number that is either within the limits or of
   * opposite sign to the error; a NaN actuation never integrates.
   */
  lemma IntegratesIff(disable: bool, uUnlim: Dbl, uMin: real, uMax: real, error: Dbl)
    requires uMin <= uMax
    ensures Integrates(disable, uUnlim, Clamp(uMin, uMax, uUnlim), error) <==>
            !disable && uUnlim.Num? &&
            ((uMin <= uUnlim.v <= uMax) || (error.Num? && uUnlim.v * error.v < 0.0))
  {
  }

  /** Integration needs both the previous and the current error to be numbers. */
  lemma IntegratesOnNumbers(kP: real, kI: real, kD: real, integral: real, previous: Dbl, error: Dbl,
                            s: real, disable: bool, uLim: real)
    requires s != 0.0
    requires Integrates(disable, Unlimited(kP, kI, kD, integral, previous, error, s), uLim, error)
    ensures previous.Num? && error.Num?
  {
  }

  /**
   * The unlimited actuation `uP + uI + uD` of a later call, which may be
   * infinite: when no time has passed, the derivative part divides by zero,
   * a non-zero number over zero is the infinity of its sign and every other
   * quotient (0/0 and NaN/0) is NaN.
   */
  datatype Actuation = Finite(d: Dbl) | Infinite(positive: bool)

  /** The unlimited actuation of a later call `s` seconds after the previous one, `s` of any sign. */
  function UnlimitedAt(kP: real, kI: real, kD: real, integral: real, previous: Dbl, error: Dbl, s: real): Actuation {
    if s != 0.0 then Finite(Unlimited(kP, kI, kD, integral, previous, error, s))
    else
      var derivative := Mul(Num(kD), Sub(error, previous));
      if error.Num? && derivative.Num? && derivative.v != 0.0 then Infinite(derivative.v > 0.0)
      else Finite(NaN)
  }

  /**
   * With no time passed the derivative part is infinite exactly when the
   * gain and the change of the error are both non-zero numbers; in every
   * other case (the default gain `kD` of 0 included) it is 0/0 and the
   * actuation is NaN.
   */
  lemma UnlimitedAtZero(kP: real, kI: real, kD: real, integral: real, previous: Dbl, error: Dbl)
    ensures UnlimitedAt(kP, kI, kD, integral, previous, error, 0.0).Infinite? <==>
            kD != 0.0 && error.Num? && previous.Num? && error.v != previous.v
    ensures kD == 0.0 ==> UnlimitedAt(kP, kI, kD, integral, previous, error, 0.0) == Finite(NaN)
  {
    if kD != 0.0 && error.Num? && previous.Num? && error.v != previous.v {
      assert kD * (error.v - previous.v) != 0.0;
    }
  }

  /** `std::max(lo, std::min(hi, u))` on a possibly infinite actuation. */
  function Limit(lo: real, hi: real, u: Actuation): (r: real)
    ensures lo <= hi ==> lo <= r <= hi
    ensures u.Finite? ==> r == Clamp(lo, hi, u.d)
    ensures u == Infinite(true) ==> r == (if lo < hi then hi else lo)
    ensures u == Infinite(false) ==> r == lo
  {
    match u
    case Finite(d) => Clamp(lo, hi, d)
    case Infinite(positive) =>
      // min(hi, +inf) is hi and min(hi, -inf) is -inf; max(lo, -inf) is lo
      if positive then StdMax(Num(lo), Num(hi)).v else lo
  }

  /**
   * The anti-wind-up condition on a possibly infinite actuation: an infinity
   * never equals the (finite) limited actuation, and its product with the
   * error is negative exactly for a non-zero error of the opposite sign.
   */
  predicate IntegratesAt(disable: bool, uUnlim: Actuation, uLim: real, error: Dbl) {
    match uUnlim
    case Finite(d) => Integrates(disable, d, uLim, error)
    case Infinite(positive) => !disable && error.Num? && (if positive then error.v < 0.0 else error.v > 0.0)
  }

  /** Integration, finite or not, needs both the previous and the current error to be numbers. */
  lemma IntegratesAtOnNumbers(kP: real, kI: real, kD: real, integral: real, previous: Dbl, error: Dbl,
                              s: real, disable: bool, uLim: real)
    requires IntegratesAt(disable, UnlimitedAt(kP, kI, kD, integral, previous, error, s), uLim, error)
    ensures previous.Num? && error.Num?
  {
    if s != 0.0 {
      IntegratesOnNumbers(kP, kI, kD, integral, previous, error, s, disable, uLim);
    }
  }

  /** `ControllerPID` */
  class PID {
    var kP: real
    var kI: real
    var kD: real
    var uMax: real
    var uMin: real
    var disableIntegrator: bool
    var errorIntegral: real
    var errorPrevious: Dbl
    var timer: Timer

    constructor (kPArg: real, kIArg: real, kDArg: real, uMaxArg: real, uMinArg: real)
      ensures kP == kPArg && kI == kIArg && kD == kDArg && uMax == uMaxArg
      ensures uMin == UMinIntended(uMaxArg, uMinArg)
      ensures !disableIntegrator && errorIntegral == 0.0 && errorPrevious == NaN && timer == Stopped
    {
      kP := kPArg;
      kI := kIArg;
      kD := kDArg;
      uMax := uMaxArg;
      uMin := UMinIntended(uMaxArg, uMinArg);
      disableIntegrator := false;
      errorIntegral := 0.0;
      errorPrevious := NaN;
      timer := Stopped;
    }

    /** The gains, the limits and the integrator switch: what a call and `reset()` keep. */
    function Settings(): (real, real, real, real, real, bool)
      reads this
    {
      (kP, kI, kD, uMax, uMin, disableIntegrator)
    }

    /** The gains and the limits. */
    function Gains(): (real, real, real, real, real)
      reads this
    {
      (kP, kI, kD, uMax, uMin)
    }

    /**
     * The seconds since the previous call: positive when the clock has moved
     * on, zero when it reads the same, negative when it went back.
     */
    function Seconds(now: real): (s: real)
      reads this
      requires timer.Started?
      ensures s > 0.0 <==> timer.at < now
      ensures s == 0.0 <==> timer.at == now
    {
      timer.Toc(now) / 1000.0
    }

    /** The actuator command a call with `error` at time `now` returns. */
    function Command(error: Dbl, now: real): real
      reads this
    {
      if timer.Stopped? then Clamp(uMin, uMax, Mul(Num(kP), error))
      else Limit(uMin, uMax, UnlimitedAt(kP, kI, kD, errorIntegral, errorPrevious, error, Seconds(now)))
    }

    /**
     * The error integral after a call with `error` at time `now`: unchanged by
     * a first call; otherwise grown by the trapezoid of the previous and the
     * current error when the anti-wind-up condition lets it integrate.
     */
    function IntegralAfter(error: Dbl, now: real): real
      reads this
    {
      if timer.Stopped? then errorIntegral
      else
        var uUnlim := UnlimitedAt(kP, kI, kD, errorIntegral, errorPrevious, error, Seconds(now));
        if IntegratesAt(disableIntegrator, uUnlim, Limit(uMin, uMax, uUnlim), error) then
          IntegratesAtOnNumbers(kP, kI, kD, errorIntegral, errorPrevious, error, Seconds(now),
                                disableIntegrator, Limit(uMin, uMax, uUnlim));
          errorIntegral + (errorPrevious.v + error.v) / 2.0 * Seconds(now)
        else errorIntegral
    }

    /** What a call with `error` at time `now` did to the controller's state. */
    twostate predicate Stepped(error: Dbl, now: real)
      reads this
    {
      Settings() == old(Settings()) && errorIntegral == old(IntegralAfter(error, now)) &&
      errorPrevious == error && timer == Started(now)
    }

    /** `operator()(error)`: the actuator command for `error` (target minus actual) at time `now`. */
    method Control(error: Dbl, now: real) returns (u: real)
      modifies this
      ensures kP == old(kP) && kI == old(kI) && kD == old(kD) && uMax == old(uMax) && uMin == old(uMin)
      ensures disableIntegrator == old(disableIntegrator)
      ensures u == old(Command(error, now)) && errorIntegral == old(IntegralAfter(error, now))
      ensures errorPrevious == error && timer == Started(now)
      ensures uMin <= uMax ==> uMin <= u <= uMax
    {
      if timer.Stopped? {
        timer := Started(now);
        errorPrevious := error;
        u := Clamp(uMin, uMax, Mul(Num(kP), error));
        return;
      }
      var secondsLastCall := timer.Toc(now) / 1000.0;
      timer := Started(now);
      var uUnlim := UnlimitedAt(kP, kI, kD, errorIntegral, errorPrevious, error, secondsLastCall);
      var uLim := Limit(uMin, uMax, uUnlim);
      if IntegratesAt(disableIntegrator, uUnlim, uLim, error) {
        IntegratesAtOnNumbers(kP, kI, kD, errorIntegral, errorPrevious, error, secondsLastCall, disableIntegrator, uLim);
        errorIntegral := errorIntegral + (errorPrevious.v + error.v) / 2.0 * secondsLastCall;
      }
      errorPrevious := error;
      u := uLim;
    }

    /**
     * A call at the very time of the previous one leaves the integral as it
     * is (it grows by a trapezoid of width zero at most) and, with ordered
     * limits, commands a limit: the upper one when the derivative part is
     * +inf or NaN (the default `kD` of 0 gives 0/0), the lower one when it is -inf.
     */
    lemma ZeroInterval(error: Dbl, now: real)
      requires timer.Started? && now == timer.at && uMin <= uMax
      ensures IntegralAfter(error, now) == errorIntegral
      ensures UnlimitedAt(kP, kI, kD, errorIntegral, errorPrevious, error, 0.0) == Infinite(false) ==>
              Command(error, now) == uMin
      ensures UnlimitedAt(kP, kI, kD, errorIntegral, errorPrevious, error, 0.0) != Infinite(false) ==>
              Command(error, now) == uMax
      ensures kD == 0.0 ==> Command(error, now) == uMax
    {
      UnlimitedAtZero(kP, kI, kD, errorIntegral, errorPrevious, error);
    }

    /** `reset()`: the next call behaves as a first call. */
    method Reset()
      modifies this
      ensures kP == old(kP) && kI == old(kI) && kD == old(kD) && uMax == old(uMax) && uMin == old(uMin)
      ensures disableIntegrator == old(disableIntegrator)
      ensures errorIntegral == 0.0 && errorPrevious == NaN && timer == Stopped
    {
      errorIntegral := 0.0;
      errorPrevious := NaN;
      timer := Stopped;
    }
  }
}
