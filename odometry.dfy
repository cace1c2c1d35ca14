// Odometry from the AR.Drone 2.0's own sensors: rotations and altitude are
// taken over from each navigation message, and the filtered forward and
// sideways velocities are integrated with the time between messages. `sin`
// and `cos` are left uninterpreted (the `Trig` parameter); the velocity
// filters read the wall clock `now` (milliseconds).

module Odometry {
  import opened Doubles
  import Trackers

  /** `sin` and `cos`, uninterpreted. */
  datatype Trig = Trig(sin: real -> real, cos: real -> real)
  {
    /** `sin(0) == 0` and `cos(0) == 1`. */
    predicate AtZero() {
      sin(0.0) == 0.0 && cos(0.0) == 1.0
    }

    /** `sin(a)^2 + cos(a)^2 == 1` at the angle `a`. */
    predicate UnitAt(a: real) {
      sin(a) * sin(a) + cos(a) * cos(a) == 1.0
    }
  }

  /** `rotateRotation`: the rotation with the yaw measured from `yawZero`. */
  function RotateRotation(rotation: Vec3, yawZero: real): Vec3 {
    rotation.(x1 := rotation.x1 - yawZero)
  }

  /**
   * Only the yaw changes; a zero reference yaw changes nothing, and turning
   * back by the same reference yaw restores the rotation.
   */
  lemma RotateRotationProperties(rotation: Vec3, yawZero: real)
    ensures RotateRotation(rotation, yawZero).x0 == rotation.x0 && RotateRotation(rotation, yawZero).x2 == rotation.x2
    ensures RotateRotation(rotation, 0.0) == rotation
    ensures RotateRotation(RotateRotation(rotation, yawZero), -yawZero) == rotation
  {
  }

  /** `rotateTranslation`: the translation turned by `yawZero` in the (0, 2) plane; component 1 is the altitude. */
  function RotateTranslation(translation: Vec3, yawZero: real, trig: Trig): Vec3 {
    var c := trig.cos(yawZero);
    var s := trig.sin(yawZero);
    Vec3(translation.x0 * c - translation.x2 * s, translation.x1, translation.x0 * s + translation.x2 * c)
  }

  function Norm2(v: Vec3): real {
    v.x0 * v.x0 + v.x1 * v.x1 + v.x2 * v.x2
  }

  /** The altitude is kept, a zero reference yaw is the identity, and the turn keeps the length. */
  lemma RotateTranslationProperties(translation: Vec3, yawZero: real, trig: Trig)
    ensures RotateTranslation(translation, yawZero, trig).x1 == translation.x1
    ensures trig.AtZero() ==> RotateTranslation(translation, 0.0, trig) == translation
    ensures trig.UnitAt(yawZero) ==> Norm2(RotateTranslation(translation, yawZero, trig)) == Norm2(translation)
  {
    var c := trig.cos(yawZero);
    var s := trig.sin(yawZero);
    var x := translation.x0;
    var z := translation.x2;
    if trig.UnitAt(yawZero) {
      SquareOfDifference(x * c, z * s);
      SquareOfSum(x * s, z * c);
      assert (x * c) * (z * s) == (x * s) * (z * c);
      assert (x * c) * (x * c) + (x * s) * (x * s) == x * x * (c * c + s * s);
      assert (z * s) * (z * s) + (z * c) * (z * c) == z * z * (s * s + c * c);
    }
    if trig.AtZero() {
      assert c == 1.0 && s == 0.0 ==> x * c - z * s == x && x * s + z * c == z;
    }
  }

  lemma SquareOfDifference(a: real, b: real)
    ensures (a - b) * (a - b) == a * a - 2.0 * (a * b) + b * b
  {
  }

  lemma SquareOfSum(a: real, b: real)
    ensures (a + b) * (a + b) == a * a + 2.0 * (a * b) + b * b
  {
  }

  /**
   * The scale correction of visual odometry by on-board odometry, shared by
   * the dense and the sparse reconstruction: the ratio of the on-board to
   * the visual translation length, taken as exactly 1 when it is within 10%.
   */
  function ScaleSnap(s: real): real {
    if 0.9 < s < 1.1 then 1.0 else s
  }

  /** Snapping keeps every ratio outside the band, is idempotent, and leaves no result but 1 inside the band. */
  lemma ScaleSnapProperties(s: real)
    ensures !(0.9 < s < 1.1) ==> ScaleSnap(s) == s
    ensures ScaleSnap(ScaleSnap(s)) == ScaleSnap(s)
    ensures ScaleSnap(s) == 1.0 || !(0.9 < ScaleSnap(s) < 1.1)
  {
  }

  /**
   * The factor that scales a visual odometry translation `viso` to the
   * on-board one `onboard`: the ratio of their lengths, snapped to 1 within
   * 10%. A visual translation of length zero gives an infinite or undefined
   * ratio, modelled as NaN. `sqrt` is left uninterpreted.
   */
  function ScaleFactor(onboard: Vec3, viso: Vec3, sqrt: real -> real): (f: Dbl)
    ensures f.NaN? <==> sqrt(Norm2(viso)) == 0.0
    ensures f.Num? ==> f.v == ScaleSnap(sqrt(Norm2(onboard)) / sqrt(Norm2(viso)))
  {
    var lengthViso := sqrt(Norm2(viso));
    if lengthViso == 0.0 then NaN else Num(ScaleSnap(sqrt(Norm2(onboard)) / lengthViso))
  }

  /** Translations of equal length, or within 10% of each other, need no scaling. */
  lemma ScaleFactorOfSimilarLengths(onboard: Vec3, viso: Vec3, sqrt: real -> real)
    requires sqrt(Norm2(viso)) > 0.0
    requires 0.9 * sqrt(Norm2(viso)) < sqrt(Norm2(onboard)) < 1.1 * sqrt(Norm2(viso))
    ensures ScaleFactor(onboard, viso, sqrt) == Num(1.0)
  {
    RatioBetween(sqrt(Norm2(onboard)), sqrt(Norm2(viso)), 0.9, 1.1);
  }

  lemma RatioBetween(a: real, b: real, lo: real, hi: real)
    requires b > 0.0 && lo * b < a < hi * b
    ensures lo < a / b < hi
  {
    var q := a / b;
    assert q * b == a;
  }

  /** `ardrone_autonomy::Navdata`, the fields used: time stamp, velocities (mm/s), angles (degrees), altitude (mm). */
  datatype Navdata = Navdata(tm: real, vx: real, vy: real, rotX: real, rotY: real, rotZ: real, altd: int)

  /** The velocity beyond which a message is not believed, 30 km/h in mm/s. */
  const SpeedLimit: real := 8333.0

  /** The time constant of both velocity filters in seconds. */
  const VelocityTau: real := 0.1

  function Abs(x: real): real {
    if x < 0.0 then -x else x
  }

  /** A message older than the previous one, or unbelievably fast, is ignored. */
  predicate Broken(tmPrev: Dbl, n: Navdata) {
    (tmPrev.Num? && n.tm < tmPrev.v) || Abs(n.vx) > SpeedLimit || Abs(n.vy) > SpeedLimit
  }

  /** The rotation in computer vision conventions (radians): pitch, yaw and roll. */
  function GlobalRotation(n: Navdata): Vec3 {
    Vec3(-n.rotY * CvPi / 180.0, -n.rotZ * CvPi / 180.0, n.rotX * CvPi / 180.0)
  }

  /**
   * The translation after a message that follows one at time `tmPrev`: the
   * altitude from the ultrasonic sensor, the ground plane moved by the
   * filtered velocities `vx`, `vy` over the elapsed seconds, along the yaw.
   */
  function Integrated(translation: Vec3, n: Navdata, vx: real, vy: real, tmPrev: real, trig: Trig): Vec3 {
    var yaw := GlobalRotation(n).x1;
    var tmDelta := (n.tm - tmPrev) * 0.000001;
    var sxDelta := vx * 0.001 * tmDelta;
    var syDelta := vy * 0.001 * tmDelta;
    Vec3(translation.x0 + (sxDelta * trig.sin(yaw) - syDelta * trig.cos(yaw)),
         -(n.altd as real) * 0.001,
         translation.x2 + (sxDelta * trig.cos(yaw) + syDelta * trig.sin(yaw)))
  }

  /** Standing still for any time moves nothing but the altitude. */
  lemma IntegratedStill(translation: Vec3, n: Navdata, tmPrev: real, trig: Trig)
    ensures Integrated(translation, n, 0.0, 0.0, tmPrev, trig) == translation.(x1 := -(n.altd as real) * 0.001)
  {
    var yaw := GlobalRotation(n).x1;
    var tmDelta := (n.tm - tmPrev) * 0.000001;
    assert 0.0 * 0.001 * tmDelta == 0.0;
  }

  /** `OdometryDrone` */
  class OdometryDrone {
    var tmPrev: Dbl
    const vxTracker: Trackers.PT1
    const vyTracker: Trackers.PT1
    var rotationGlobal: Vec3
    var translationGlobal: Vec3

    /** Two separate velocity filters with time constant 0.1 s; once they have a value, it is a number. */
    ghost predicate Valid()
      reads this, vxTracker, vyTracker
    {
      vxTracker != vyTracker && vxTracker.Valid() && vyTracker.Valid() &&
      vxTracker.tau == VelocityTau && vyTracker.tau == VelocityTau &&
      (vxTracker.state.init ==> vxTracker.state.x.Num?) && (vyTracker.state.init ==> vyTracker.state.x.Num?)
    }

    /**
     * Neither filter's weight is infinite at `now`: the clock does not read
     * exactly one time constant before their last update.
     */
    predicate FiltersDefined(now: real)
      reads this, vxTracker, vyTracker
    {
      vxTracker.state.RatioDefined(VelocityTau, now) && vyTracker.state.RatioDefined(VelocityTau, now)
    }

    constructor ()
      ensures Valid() && fresh(vxTracker) && fresh(vyTracker)
      ensures tmPrev == NaN && vxTracker.state == Trackers.Unset && vyTracker.state == Trackers.Unset
      ensures rotationGlobal == Zero3 && translationGlobal == Zero3
    {
      tmPrev := NaN;
      vxTracker := new Trackers.PT1(VelocityTau);
      vyTracker := new Trackers.PT1(VelocityTau);
      rotationGlobal := Zero3;
      translationGlobal := Zero3;
    }

    /** `processNavdata(navdata)` */
    method ProcessNavdata(n: Navdata, now: real, trig: Trig)
      requires Valid() && FiltersDefined(now)
      modifies this, vxTracker, vyTracker
      ensures Valid()
      ensures Broken(old(tmPrev), n) ==> unchanged(this) && unchanged(vxTracker) && unchanged(vyTracker)
      ensures !Broken(old(tmPrev), n) ==>
                tmPrev == Num(n.tm) &&
                vxTracker.state == Trackers.PT1Update(old(vxTracker.state), VelocityTau, Num(n.vx), now) &&
                vyTracker.state == Trackers.PT1Update(old(vyTracker.state), VelocityTau, Num(n.vy), now)
      ensures !Broken(old(tmPrev), n) && old(tmPrev).NaN? ==>
                rotationGlobal == old(rotationGlobal) && translationGlobal == old(translationGlobal)
      ensures !Broken(old(tmPrev), n) && old(tmPrev).Num? ==>
                rotationGlobal == GlobalRotation(n) &&
                translationGlobal == Integrated(old(translationGlobal), n, vxTracker.state.x.v, vyTracker.state.x.v,
                                                old(tmPrev).v, trig)
      ensures old(tmPrev).Num? ==> tmPrev.Num? && tmPrev.v >= old(tmPrev).v
    {
      if (tmPrev.Num? && n.tm < tmPrev.v) || Abs(n.vx) > SpeedLimit || Abs(n.vy) > SpeedLimit {
        return;
      }
      Trackers.PT1UpdateNumber(vxTracker.state, VelocityTau, n.vx, now);
      Trackers.PT1UpdateNumber(vyTracker.state, VelocityTau, n.vy, now);
      vxTracker.Measure(Num(n.vx), now);
      vyTracker.Measure(Num(n.vy), now);
      if tmPrev.Num? {
        rotationGlobal := GlobalRotation(n);
        translationGlobal := Integrated(translationGlobal, n, vxTracker.state.x.v, vyTracker.state.x.v, tmPrev.v, trig);
      }
      tmPrev := Num(n.tm);
    }

    /** `getRotation(yawZero)` */
    function GetRotation(yawZero: real): (r: Vec3)
      reads this
      ensures r.x0 == rotationGlobal.x0 && r.x2 == rotationGlobal.x2
      ensures yawZero == 0.0 ==> r == rotationGlobal
    {
      RotateRotation(rotationGlobal, yawZero)
    }

    /** `getTranslation(yawZero)` */
    function GetTranslation(yawZero: real, trig: Trig): (r: Vec3)
      reads this
      ensures r.x1 == translationGlobal.x1
      ensures trig.AtZero() && yawZero == 0.0 ==> r == translationGlobal
    {
      RotateTranslation(translationGlobal, yawZero, trig)
    }
  }
}
