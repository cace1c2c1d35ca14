// The 1D trackers of libHawaii: an exponential filter, a "PT1-like" filter
// whose weight depends on the time since the last measurement, and a
// "Kalman-like" filter with a state variance. The wall clock is the input
// `now` (milliseconds); the compare-and-swap retry loop and the mutexes of the
// source are sequential assignments here.

module Trackers {
  import opened Wrappers
  import opened Doubles

  const ErrRatio := "invalid ratio"
  const ErrTau := "invalid time constant"
  const ErrNoise := "invalid process or measurement noise"
  const ErrBase := "virtual inheritance not used, so only handle pointers to derived types"

  /** The default ratio of the exponential tracker. */
  const DefaultRatio: real := 0.9

  /** The default process and measurement noise of the Kalman tracker. */
  const DefaultNoise: real := 1.0

  /** `v` lies between `a` and `b`, in either order. */
  predicate Between(v: real, a: real, b: real) {
    (a <= v <= b) || (b <= v <= a)
  }

  lemma MulNonneg(x: real, y: real)
    requires x >= 0.0 && y >= 0.0
    ensures x * y >= 0.0
  {
  }

  /** A weighted mean `a * t + b * (1 - t)` with a weight in [0, 1] lies between `a` and `b`. */
  lemma Convex(a: real, b: real, t: real)
    requires 0.0 <= t <= 1.0
    ensures Between(a * t + b * (1.0 - t), a, b)
  {
    assert a * t + b * (1.0 - t) == b + t * (a - b);
    assert a * t + b * (1.0 - t) == a + (1.0 - t) * (b - a);
    if a <= b {
      MulNonneg(t, b - a);
      MulNonneg(1.0 - t, b - a);
    } else {
      MulNonneg(t, a - b);
      MulNonneg(1.0 - t, a - b);
    }
  }

  // ---------------------------------------------------------------------------
  // Exponential tracker

  /**
   * The exponential tracker's value after a measurement `z`: exactly `z` from
   * NaN, else the weighted mean. It is a number exactly when the measurement
   * is, so a NaN measurement makes the tracker uninitialised again.
   */
  function ExpUpdate(x: Dbl, ratio: real, z: Dbl): (r: Dbl)
    ensures r.Num? <==> z.Num?
    ensures x.NaN? ==> r == z
  {
    if x.Num? then Add(Mul(x, Num(ratio)), Mul(z, Num(1.0 - ratio))) else z
  }

  /** With a ratio in [0, 1] the new value lies between the old value and the measurement. */
  lemma ExpUpdateBetween(x: real, ratio: real, z: real)
    requires 0.0 <= ratio <= 1.0
    ensures Between(ExpUpdate(Num(x), ratio, Num(z)).v, x, z)
  {
    Convex(x, z, ratio);
  }

  class Exponential {
    var x: Dbl
    const ratio: real

    ghost predicate Valid()
      reads this
    {
      0.0 <= ratio <= 1.0
    }

    constructor (ratioArg: real)
      requires 0.0 <= ratioArg <= 1.0
      ensures Valid() && ratio == ratioArg && x == NaN
    {
      ratio := ratioArg;
      x := NaN;
    }

    /** `operator double` */
    function Value(): Dbl
      reads this
    {
      x
    }

    /** `isInit()`: the value is not NaN. */
    predicate IsInit()
      reads this
    {
      x.Num?
    }

    /** `operator()(z)`: afterwards the tracker is initialised exactly when `z` is a number. */
    method Measure(z: Dbl)
      modifies this
      ensures x == ExpUpdate(old(x), ratio, z) && (IsInit() <==> z.Num?)
    {
      x := ExpUpdate(x, ratio, z);
    }

    method Reset()
      modifies this
      ensures x == NaN && !IsInit()
    {
      x := NaN;
    }
  }

  /** The checked constructor: a ratio outside [0, 1] is refused. */
  method NewExponential(ratio: real) returns (res: Result<Exponential>)
    ensures res.Err? <==> ratio < 0.0 || ratio > 1.0
    ensures res.Err? ==> res.msg == ErrRatio
    ensures res.Ok? ==> fresh(res.value) && res.value.Valid() && res.value.ratio == ratio && !res.value.IsInit()
  {
    if ratio < 0.0 || ratio > 1.0 {
      return Err(ErrRatio);
    }
    var t := new Exponential(ratio);
    res := Ok(t);
  }

  // ---------------------------------------------------------------------------
  // Time-dependent trackers

  /** What `Tracker1DBase` holds: the timer since the last update, the init flag and the value. */
  datatype BaseState = BaseState(timer: Timer, init: bool, x: Dbl)
  {
    /** Initialised exactly while the timer runs; uninitialised means NaN. */
    ghost predicate Valid() {
      (init <==> timer.Started?) && (!init ==> x == NaN)
    }

    /** The clock has not gone back since the last update. */
    predicate NotBefore(now: real) {
      timer.Started? ==> timer.at <= now
    }

    /**
     * A PT1 measurement at `now` does not divide a positive time constant by
     * zero, i.e. the clock does not read exactly `tau` seconds before the last
     * update (which would make the weight infinite).
     */
    predicate RatioDefined(tau: real, now: real) {
      timer.Started? ==> tau == 0.0 || tau + timer.Toc(now) / 1000.0 != 0.0
    }
  }

  /** The state of a new tracker, and what `resetBase()` restores. */
  const Unset := BaseState(Stopped, false, NaN)

  /** The base class's `operator()` and `reset()` always fail. */
  function BaseMeasure(z: real): (r: Result<()>)
    ensures r == Err(ErrBase)
  {
    Err(ErrBase)
  }

  function BaseReset(): (r: Result<()>)
    ensures r == Err(ErrBase)
  {
    Err(ErrBase)
  }

  /** `tau / (tau + deltaT)`, with `deltaT` of any sign; 0/0 is NaN. */
  function PT1Ratio(tau: real, deltaT: real): (r: Dbl)
    requires tau + deltaT == 0.0 ==> tau == 0.0
    ensures tau >= 0.0 && deltaT >= 0.0 && tau + deltaT > 0.0 ==> r.Num? && 0.0 <= r.v <= 1.0
    ensures r.NaN? <==> tau == 0.0 && deltaT == 0.0
  {
    if tau + deltaT == 0.0 then NaN
    else
      assert tau >= 0.0 && deltaT >= 0.0 && tau + deltaT > 0.0 ==> tau / (tau + deltaT) <= 1.0 by {
        if tau >= 0.0 && deltaT >= 0.0 && tau + deltaT > 0.0 {
          DivLeOne(tau, tau + deltaT);
        }
      }
      Num(tau / (tau + deltaT))
  }

  /**
   * When the clock has gone back by less than the time constant the weight
   * exceeds one, so the new value overshoots: it moves away from the
   * measurement instead of towards it.
   */
  lemma PT1RatioBackwards(tau: real, deltaT: real)
    requires tau > 0.0 && deltaT < 0.0 && tau + deltaT > 0.0
    ensures PT1Ratio(tau, deltaT).Num? && PT1Ratio(tau, deltaT).v > 1.0
  {
    DivGtOne(tau, tau + deltaT);
  }

  lemma DivGtOne(a: real, b: real)
    requires 0.0 < b < a
    ensures a / b > 1.0
  {
  }

  lemma DivLeOne(a: real, b: real)
    requires 0.0 <= a <= b && b > 0.0
    ensures 0.0 <= a / b <= 1.0
  {
  }

  /** The PT1 tracker after a measurement `z` at time `now`. */
  function PT1Update(b: BaseState, tau: real, z: Dbl, now: real): (r: BaseState)
    requires b.init ==> b.timer.Started? && b.RatioDefined(tau, now)
    ensures r.init && r.timer == Started(now)
    ensures !b.init ==> r.x == z
    ensures z.NaN? ==> r.x.NaN?
  {
    if b.init then
      var ratio := PT1Ratio(tau, b.timer.Toc(now) / 1000.0);
      BaseState(Started(now), true, Add(Mul(b.x, ratio), Mul(z, Sub(Num(1.0), ratio))))
    else
      BaseState(Started(now), true, z)
  }

  /**
   * With a non-negative time constant and time since the last update, not
   * both zero, the new value lies between the old value and the measurement.
   */
  lemma PT1UpdateBetween(b: BaseState, tau: real, z: real, now: real)
    requires b.init && b.timer.Started? && b.x.Num? && tau >= 0.0 && b.timer.at <= now
    requires tau + (now - b.timer.at) / 1000.0 > 0.0
    ensures PT1Update(b, tau, Num(z), now).x.Num?
    ensures Between(PT1Update(b, tau, Num(z), now).x.v, b.x.v, z)
  {
    var ratio := PT1Ratio(tau, b.timer.Toc(now) / 1000.0);
    assert ratio.Num? && 0.0 <= ratio.v <= 1.0;
    Convex(b.x.v, z, ratio.v);
  }

  /** With a positive time constant an update of a valued tracker yields a value, never NaN. */
  lemma PT1UpdateNumber(b: BaseState, tau: real, z: real, now: real)
    requires b.Valid() && b.RatioDefined(tau, now) && tau > 0.0 && (b.init ==> b.x.Num?)
    ensures PT1Update(b, tau, Num(z), now).x.Num?
  {
  }

  /** `Tracker1DPT1` */
  class PT1 {
    var state: BaseState
    var tau: real

    ghost predicate Valid()
      reads this
    {
      tau >= 0.0 && state.Valid()
    }

    constructor (tauArg: real)
      requires tauArg >= 0.0
      ensures Valid() && tau == tauArg && state == Unset
    {
      tau := tauArg;
      state := Unset;
    }

    function Value(): Dbl
      reads this
    {
      state.x
    }

    predicate IsInit()
      reads this
    {
      state.init
    }

    /** `operator()(z)` at time `now`; a NaN measurement makes the value NaN. */
    method Measure(z: Dbl, now: real)
      requires Valid() && state.RatioDefined(tau, now)
      modifies this
      ensures Valid() && tau == old(tau) && state == PT1Update(old(state), tau, z, now)
    {
      state := PT1Update(state, tau, z, now);
    }

    method Reset()
      modifies this
      ensures tau == old(tau) && state == Unset
    {
      state := Unset;
    }

    /** Assignment copies timer, init flag, value and time constant; self-assignment changes nothing. */
    method Assign(that: PT1)
      modifies this
      ensures state == old(that.state) && tau == old(that.tau)
    {
      if this != that {
        state := that.state;
        tau := that.tau;
      }
    }
  }

  /** The checked constructor: a negative time constant is refused. */
  method NewPT1(tau: real) returns (res: Result<PT1>)
    ensures res.Err? <==> tau < 0.0
    ensures res.Err? ==> res.msg == ErrTau
    ensures res.Ok? ==> fresh(res.value) && res.value.Valid() && res.value.tau == tau && res.value.state == Unset
  {
    if tau < 0.0 {
      return Err(ErrTau);
    }
    var t := new PT1(tau);
    res := Ok(t);
  }

  // ---------------------------------------------------------------------------
  // Kalman tracker

  /** The Kalman tracker's base state and state variance `p`. */
  datatype KalmanState = KalmanState(base: BaseState, p: Dbl)
  {
    /** An uninitialised tracker has a NaN variance. */
    ghost predicate Valid() {
      base.Valid() && (!base.init ==> p == NaN)
    }

    /** A variance that is a number is not negative. */
    predicate NonnegVariance() {
      p.Num? ==> p.v >= 0.0
    }
  }

  const KalmanUnset := KalmanState(Unset, NaN)

  /** The variance predicted at time `now`: `p + q * toc() / 1000`. */
  function KalmanPredicted(s: KalmanState, q: real, now: real): Dbl {
    // a stopped timer belongs to an uninitialised tracker, whose variance is NaN anyway
    if s.base.timer.Started? then Add(s.p, Num(q * s.base.timer.Toc(now) / 1000.0)) else s.p
  }

  /** The denominator `r + p` of the correction step. */
  function KalmanDenominator(p: Dbl, rArg: real): Dbl {
    Add(Num(rArg), p)
  }

  /**
   * Neither quotient of the correction step is a non-zero number over zero,
   * which would be infinite.
   */
  predicate CorrectDefined(x: Dbl, p: Dbl, rArg: real, z: Dbl) {
    Same(KalmanDenominator(p, rArg), Num(0.0)) ==>
      (var pn := Mul(Num(rArg), p); !pn.Num? || pn.v == 0.0) &&
      (var xn := Add(Mul(Num(rArg), x), Mul(p, z)); !xn.Num? || xn.v == 0.0)
  }

  lemma KalmanPredictedUnset(s: KalmanState, q: real, now: real)
    requires s.Valid() && !s.base.init
    ensures KalmanPredicted(s, q, now) == NaN
  {
  }

  /**
   * The correction step on value `x` and predicted variance `p`:
   * `x = (r * x + p * z) / (r + p)` and `p = r * p / (r + p)`.
   */
  function KalmanCorrect(x: Dbl, p: Dbl, rArg: real, z: Dbl): (r: (Dbl, Dbl))
    requires CorrectDefined(x, p, rArg, z)
    ensures rArg >= 0.0 && (p.Num? ==> p.v >= 0.0) ==> (r.1.Num? ==> r.1.v >= 0.0)
    ensures x.NaN? || z.NaN? ==> r.0.NaN?
  {
    var den := KalmanDenominator(p, rArg);
    var pNew := Quot(Mul(Num(rArg), p), den);
    assert rArg >= 0.0 && (p.Num? ==> p.v >= 0.0) ==> (pNew.Num? ==> pNew.v >= 0.0) by {
      if rArg >= 0.0 && (p.Num? ==> p.v >= 0.0) && pNew.Num? {
        MulNonneg(rArg, p.v);
        DivNonneg(rArg * p.v, rArg + p.v);
      }
    }
    (Quot(Add(Mul(Num(rArg), x), Mul(p, z)), den), pNew)
  }

  lemma DivNonneg(a: real, b: real)
    requires a >= 0.0 && b > 0.0
    ensures a / b >= 0.0
  {
  }

  /** With non-negative noise and variance, a zero denominator comes with a zero (or NaN) numerator. */
  lemma KalmanQuotDefined(x: Dbl, p: Dbl, rArg: real, z: Dbl)
    requires rArg >= 0.0 && (p.Num? ==> p.v >= 0.0)
    ensures CorrectDefined(x, p, rArg, z)
  {
    if p.Num? && rArg + p.v == 0.0 {
      assert rArg == 0.0 && p == Num(0.0);
      CorrectDefinedAtZero(x, z);
    }
  }

  lemma CorrectDefinedAtZero(x: Dbl, z: Dbl)
    ensures CorrectDefined(x, Num(0.0), 0.0, z)
  {
    if z.Num? {
      ZeroMul(z.v);
    }
    if x.Num? {
      ZeroMul(x.v);
    }
  }

  lemma ZeroMul(a: real)
    ensures 0.0 * a == 0.0 && a * 0.0 == 0.0
  {
  }

  /**
   * A measurement at `now` with noise `rArg` keeps both quotients finite:
   * always for a first measurement, and for a later one unless the clock went
   * back or the noise is negative and the denominator `r + p` is zero.
   */
  predicate UpdateDefined(s: KalmanState, q: real, rArg: real, z: Dbl, now: real) {
    s.base.init ==> CorrectDefined(s.base.x, KalmanPredicted(s, q, now), rArg, z)
  }

  /** What makes an update defined whatever the measurement: the clock did not go back and the noises are not negative. */
  lemma UpdateDefinedForward(s: KalmanState, q: real, rArg: real, z: Dbl, now: real)
    requires s.NonnegVariance() && s.base.NotBefore(now) && q >= 0.0 && rArg >= 0.0
    ensures UpdateDefined(s, q, rArg, z, now)
  {
    if s.base.init {
      KalmanPredictedNonneg(s, q, now);
      KalmanQuotDefined(s.base.x, KalmanPredicted(s, q, now), rArg, z);
    }
  }

  /**
   * The Kalman tracker after a measurement `z` with measurement noise `rArg`
   * at time `now`. A NaN measurement makes the value NaN, and a tracker whose
   * value is NaN stays at NaN through every later measurement until a reset.
   * When the clock did not go back the noises keep the variance non-negative.
   */
  function KalmanUpdate(s: KalmanState, q: real, rArg: real, z: Dbl, now: real): (r: KalmanState)
    requires s.Valid() && UpdateDefined(s, q, rArg, z, now)
    ensures r.Valid() && r.base.init && r.base.timer == Started(now)
    ensures !s.base.init ==> r.base.x == z && r.p == Num(rArg)
    ensures z.NaN? ==> r.base.x.NaN?
    ensures s.base.init && s.base.x.NaN? ==> r.base.x.NaN?
    ensures s.NonnegVariance() && s.base.NotBefore(now) && q >= 0.0 && rArg >= 0.0 ==> r.NonnegVariance()
  {
    if s.base.init then
      var c := KalmanCorrect(s.base.x, KalmanPredicted(s, q, now), rArg, z);
      assert s.NonnegVariance() && s.base.NotBefore(now) && q >= 0.0 && rArg >= 0.0 ==> c.1.Num? ==> c.1.v >= 0.0 by {
        if s.NonnegVariance() && s.base.NotBefore(now) && q >= 0.0 {
          KalmanPredictedNonneg(s, q, now);
        }
      }
      KalmanState(BaseState(Started(now), true, c.0), c.1)
    else
      KalmanState(BaseState(Started(now), true, z), Num(rArg))
  }

  lemma KalmanPredictedNonneg(s: KalmanState, q: real, now: real)
    requires s.NonnegVariance() && s.base.NotBefore(now) && q >= 0.0
    ensures var p := KalmanPredicted(s, q, now); p.Num? ==> p.v >= 0.0
  {
    if s.base.timer.Started? {
      MulNonneg(q, s.base.timer.Toc(now));
    }
  }

  /**
   * A later update first lets the variance grow by `q` times the elapsed
   * seconds; when that and the measurement noise are not both zero, the new
   * variance is at most the noise and at most the predicted variance, and the
   * new value lies between the old value and the measurement.
   */
  lemma KalmanUpdateShrinks(s: KalmanState, q: real, rArg: real, z: real, now: real)
    requires s.Valid() && s.NonnegVariance() && s.base.NotBefore(now) && q >= 0.0 && rArg >= 0.0
    requires s.base.init && s.base.x.Num? && s.p.Num?
    requires rArg + KalmanPredicted(s, q, now).v > 0.0
    ensures UpdateDefined(s, q, rArg, Num(z), now)
    ensures var r := KalmanUpdate(s, q, rArg, Num(z), now);
            r.base.x.Num? && r.p.Num? &&
            r.p.v <= rArg && r.p.v <= KalmanPredicted(s, q, now).v &&
            Between(r.base.x.v, s.base.x.v, z)
  {
    UpdateDefinedForward(s, q, rArg, Num(z), now);
    KalmanPredictedNonneg(s, q, now);
    CorrectShrinks(s.base.x.v, KalmanPredicted(s, q, now).v, rArg, z);
  }

  lemma CorrectShrinks(x: real, p: real, rArg: real, z: real)
    requires rArg >= 0.0 && p >= 0.0 && rArg + p > 0.0
    ensures CorrectDefined(Num(x), Num(p), rArg, Num(z))
    ensures var c := KalmanCorrect(Num(x), Num(p), rArg, Num(z));
            c.0.Num? && c.1.Num? && c.1.v <= rArg && c.1.v <= p && Between(c.0.v, x, z)
  {
    var c := KalmanCorrect(Num(x), Num(p), rArg, Num(z));
    assert c.0 == Num((rArg * x + p * z) / (rArg + p));
    assert c.1 == Num(rArg * p / (rArg + p));
    CorrectReal(x, p, rArg, z);
  }

  lemma CorrectReal(x: real, p: real, rArg: real, z: real)
    requires rArg >= 0.0 && p >= 0.0 && rArg + p > 0.0
    ensures rArg * p / (rArg + p) <= rArg && rArg * p / (rArg + p) <= p
    ensures Between((rArg * x + p * z) / (rArg + p), x, z)
  {
    var den := rArg + p;
    var t := rArg / den;
    DivLeOne(rArg, den);
    DivLeOne(p, den);
    WeightedQuot(x, z, rArg, p);
    Convex(x, z, t);
    MulQuot(rArg, p);
    MulLeSelf(rArg, p / den);
    MulLeSelf(p, t);
  }

  lemma WeightedQuot(x: real, z: real, a: real, p: real)
    requires a + p != 0.0
    ensures (a * x + p * z) / (a + p) == x * (a / (a + p)) + z * (1.0 - a / (a + p))
  {
    var d := a + p;
    DivAdd(a, p, d);
    assert a / d + p / d == 1.0;
    DivAdd(a * x, p * z, d);
    MulDiv(a, x, d);
    MulDiv(p, z, d);
  }

  lemma DivAdd(u: real, v: real, d: real)
    requires d != 0.0
    ensures (u + v) / d == u / d + v / d
  {
  }

  lemma MulDiv(a: real, x: real, d: real)
    requires d != 0.0
    ensures a * x / d == x * (a / d)
  {
  }

  lemma MulQuot(a: real, p: real)
    requires a + p != 0.0
    ensures a * p / (a + p) == a * (p / (a + p)) == p * (a / (a + p))
  {
    MulDiv(p, a, a + p);
    MulDiv(a, p, a + p);
  }

  lemma MulLeSelf(a: real, f: real)
    requires a >= 0.0 && 0.0 <= f <= 1.0
    ensures a * f <= a
  {
    MulNonneg(a, 1.0 - f);
  }

  /** `Tracker1DKalman` */
  class Kalman {
    var state: KalmanState
    var q: real
    var r: real

    ghost predicate Valid()
      reads this
    {
      q >= 0.0 && r >= 0.0 && state.Valid()
    }

    constructor (qArg: real, rArg: real)
      requires qArg >= 0.0 && rArg >= 0.0
      ensures Valid() && q == qArg && r == rArg && state == KalmanUnset
    {
      q := qArg;
      r := rArg;
      state := KalmanUnset;
    }

    function Value(): Dbl
      reads this
    {
      state.base.x
    }

    predicate IsInit()
      reads this
    {
      state.base.init
    }

    /** `predict(xRet, pRet)`: the value and the variance predicted for time `now`; the tracker is unchanged. */
    method Predict(now: real) returns (xRet: Dbl, pRet: Dbl)
      requires Valid()
      ensures xRet == state.base.x && pRet == KalmanPredicted(state, q, now)
      ensures !IsInit() ==> xRet == NaN && pRet == NaN
    {
      xRet := state.base.x;
      if state.base.timer.Started? {
        pRet := Add(state.p, Num(q * state.base.timer.Toc(now) / 1000.0));
      } else {
        pRet := state.p;
      }
    }

    /** `update(z, rArg)` at time `now`, with a noise `rArg` of any sign */
    method UpdateWith(z: Dbl, rArg: real, now: real)
      requires Valid() && UpdateDefined(state, q, rArg, z, now)
      modifies this
      ensures Valid() && q == old(q) && r == old(r)
      ensures state == KalmanUpdate(old(state), q, rArg, z, now)
    {
      state := KalmanUpdate(state, q, rArg, z, now);
    }

    /** `operator()(z)` and `update(z)`: the update with the stored measurement noise. */
    method Measure(z: Dbl, now: real)
      requires Valid() && UpdateDefined(state, q, r, z, now)
      modifies this
      ensures Valid() && q == old(q) && r == old(r)
      ensures state == KalmanUpdate(old(state), q, r, z, now)
    {
      UpdateWith(z, r, now);
    }

    method Reset()
      requires Valid()
      modifies this
      ensures Valid() && q == old(q) && r == old(r) && state == KalmanUnset
    {
      state := KalmanUnset;
    }

    /** Assignment copies every field but the mutex; self-assignment changes nothing. */
    method Assign(that: Kalman)
      modifies this
      ensures state == old(that.state) && q == old(that.q) && r == old(that.r)
    {
      if this != that {
        state := that.state;
        q := that.q;
        r := that.r;
      }
    }
  }

  /** The checked constructor: negative process or measurement noise is refused. */
  method NewKalman(q: real, r: real) returns (res: Result<Kalman>)
    ensures res.Err? <==> q < 0.0 || r < 0.0
    ensures res.Err? ==> res.msg == ErrNoise
    ensures res.Ok? ==> fresh(res.value) && res.value.Valid() && res.value.q == q && res.value.r == r
    ensures res.Ok? ==> res.value.state == KalmanUnset
  {
    if q < 0.0 || r < 0.0 {
      return Err(ErrNoise);
    }
    var t := new Kalman(q, r);
    res := Ok(t);
  }
}
