// C++ doubles as the drone code uses them: NaN is a value the code relies on
// (an unset tracker, a missing landmark, an unknown pose), so it is modelled
// explicitly; otherwise a double is an exact real (rounding, infinities and
// overflow are not modelled). Also the elapsed-time timer and the 3-vector.

module Doubles {

  /** A C++ `double`: NaN or an exact real. */
  datatype Dbl = NaN | Num(v: real)

  function Add(a: Dbl, b: Dbl): Dbl {
    if a.Num? && b.Num? then Num(a.v + b.v) else NaN
  }

  function Sub(a: Dbl, b: Dbl): Dbl {
    if a.Num? && b.Num? then Num(a.v - b.v) else NaN
  }

  /** NaN absorbs every product, including a product with zero. */
  function Mul(a: Dbl, b: Dbl): Dbl {
    if a.Num? && b.Num? then Num(a.v * b.v) else NaN
  }

  /** Division by a non-zero number. */
  function DivBy(a: Dbl, d: real): Dbl
    requires d != 0.0
  {
    if a.Num? then Num(a.v / d) else NaN
  }

  /**
   * A quotient of doubles. A zero denominator gives NaN, which is what 0/0
   * and NaN/0 give; a non-zero number over zero (an infinity) is excluded.
   */
  function Quot(a: Dbl, d: Dbl): Dbl
    requires Same(d, Num(0.0)) ==> !a.Num? || a.v == 0.0
  {
    if a.Num? && d.Num? && d.v != 0.0 then Num(a.v / d.v) else NaN
  }

  /** `fabs` */
  function Fabs(a: Dbl): Dbl {
    if a.Num? && a.v < 0.0 then Num(-a.v) else a
  }

  /** `a < b`: every comparison with NaN is false. */
  predicate Less(a: Dbl, b: Dbl) {
    a.Num? && b.Num? && a.v < b.v
  }

  /** `a == b` on doubles: NaN equals nothing, not even itself. */
  predicate Same(a: Dbl, b: Dbl) {
    a.Num? && b.Num? && a.v == b.v
  }

  /** `std::min(a, b)`, i.e. `(b < a) ? b : a`. */
  function StdMin(a: Dbl, b: Dbl): (r: Dbl)
    ensures r == a || r == b
    ensures a.Num? && b.Num? ==> r.v <= a.v && r.v <= b.v
  {
    if Less(b, a) then b else a
  }

  /** `std::max(a, b)`, i.e. `(a < b) ? b : a`. */
  function StdMax(a: Dbl, b: Dbl): (r: Dbl)
    ensures r == a || r == b
    ensures a.Num? && b.Num? ==> r.v >= a.v && r.v >= b.v
  {
    if Less(a, b) then b else a
  }

  /**
   * `std::max(lo, std::min(hi, u))`, the actuator limitation of the PID
   * controller. It is always a number: a NaN input falls through to a limit.
   */
  function Clamp(lo: real, hi: real, u: Dbl): (r: real)
    ensures lo <= hi ==> lo <= r <= hi
    ensures u.Num? && lo <= u.v <= hi ==> r == u.v
    ensures u.Num? && hi < u.v ==> r == (if lo < hi then hi else lo)
    ensures u.Num? && u.v < lo && lo <= hi ==> r == lo
    ensures u.NaN? ==> r == (if lo < hi then hi else lo)
  {
    var m := StdMax(Num(lo), StdMin(Num(hi), u));
    m.v
  }

  /** `std::numeric_limits<double>::max()`, (2^53 - 1) * 2^971. */
  const DblMax: real := 179769313486231570814527423731704356798070567525844996598917476803157260780028538760589558632766878171540458953514382464234321326889464182768467546703537516986049910576551282076245490090389328944075868508455133942304583236903222948165808559332123348274797826204144723168738177180919299881250404026184124858368.0

  /** `std::numeric_limits<double>::min()`, the smallest positive normal double 2^-1022. */
  const DblMin: real := 1.0 / 44942328371557897693232629769725618340449424473557664318357520289433168951375240783177119330601884005280028469967848339414697442203604155623211857659868531094441973356216371319075554900311523529863270738021251442209537670585615720368478277635206809290837627671146574559986811484619929076208839082406056034304.0

  /** OpenCV's `CV_PI`. */
  const CvPi: real := 3.1415926535897932384626433832795

  /**
   * `hawaii::common::Timer`: stopped, or started at a time in milliseconds.
   * The clock is an input (`now`) of every operation that reads it.
   */
  datatype Timer = Stopped | Started(at: real)
  {
    predicate IsRunning() { Started? }

    /** `toc()`: milliseconds since the last `tic()`. */
    function Toc(now: real): real
      requires Started?
    {
      now - at
    }
  }

  /** `cv::Vec3d` */
  datatype Vec3 = Vec3(x0: real, x1: real, x2: real)
  {
    function Minus(that: Vec3): Vec3 {
      Vec3(x0 - that.x0, x1 - that.x1, x2 - that.x2)
    }
  }

  const Zero3 := Vec3(0.0, 0.0, 0.0)

  /** A vector of three NaNs, `cv::Vec3d::all(NAN)`. */
  datatype Vec3D = Vec3D(y0: Dbl, y1: Dbl, y2: Dbl)

  const NaN3 := Vec3D(NaN, NaN, NaN)

  function ToDbl3(v: Vec3): Vec3D {
    Vec3D(Num(v.x0), Num(v.x1), Num(v.x2))
  }
}
