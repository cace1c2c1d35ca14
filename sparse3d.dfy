// The monocular sparse 3D reconstruction on top of visual odometry: each
// front image either replaces the newest image of the odometry or moves the
// odometry on, a counter of consecutive failures decides which, successful
// motions are scale-corrected by the on-board odometry and accumulated into a
// pose. The visual odometry itself is an input: its success flag, its motion
// (a 4x4 transformation), its 3D points and the indices of its inliers; so
// are the matrix inverse and `sqrt`.

module Sparse3D {
  import opened Doubles
  import opened Wrappers
  import Odometry
  import Images
  import GpuRuntime

  /** A 4x4 transformation of doubles, row after row: entry (i, j) is element `4 * i + j`. */
  type Matx44 = m: seq<Dbl> | |m| == 16 witness seq(16, _ => Num(0.0))

  /** `cv::Matx44d::eye()` */
  function Eye(): Matx44 {
    seq(16, k => Num(if k / 4 == k % 4 then 1.0 else 0.0))
  }

  /** Entry (i, j) of the product `a * b`. */
  function Dot(a: Matx44, b: Matx44, i: int, j: int): Dbl
    requires 0 <= i < 4 && 0 <= j < 4
  {
    Add(Add(Add(Mul(a[4 * i], b[j]), Mul(a[4 * i + 1], b[4 + j])), Mul(a[4 * i + 2], b[8 + j])),
        Mul(a[4 * i + 3], b[12 + j]))
  }

  /** The matrix product `a * b`. */
  function MatMul(a: Matx44, b: Matx44): Matx44 {
    seq(16, k requires 0 <= k < 16 => Dot(a, b, k / 4, k % 4))
  }

  predicate AllNumbers(m: Matx44) {
    forall k :: 0 <= k < 16 ==> m[k].Num?
  }

  /** Entry (i, j) of the identity times a matrix without NaN is entry (i, j) of the matrix. */
  lemma DotEye(m: Matx44, i: int, j: int)
    requires 0 <= i < 4 && 0 <= j < 4
    requires m[j].Num? && m[4 + j].Num? && m[8 + j].Num? && m[12 + j].Num?
    ensures Dot(Eye(), m, i, j) == m[4 * i + j]
  {
    var e := Eye();
    assert e[4 * i] == Num(if i == 0 then 1.0 else 0.0);
    assert e[4 * i + 1] == Num(if i == 1 then 1.0 else 0.0);
    assert e[4 * i + 2] == Num(if i == 2 then 1.0 else 0.0);
    assert e[4 * i + 3] == Num(if i == 3 then 1.0 else 0.0);
  }

  /** The identity is a left unit of the product of matrices without NaN. */
  lemma EyeTimes(m: Matx44)
    requires AllNumbers(m)
    ensures MatMul(Eye(), m) == m
  {
    forall k | 0 <= k < 16
      ensures MatMul(Eye(), m)[k] == m[k]
    {
      var i, j := k / 4, k % 4;
      assert k == 4 * i + j;
      assert m[j].Num? && m[4 + j].Num? && m[8 + j].Num? && m[12 + j].Num?;
      DotEye(m, i, j);
    }
  }

  /** The motion the visual odometry reports, a transformation of reals. */
  type Motion = m: seq<real> | |m| == 16 witness seq(16, _ => 0.0)

  /** The translation column of a motion. */
  function TranslationOf(m: Motion): Vec3 {
    Vec3(m[3], m[7], m[11])
  }

  /** A motion with its translation column multiplied by `f`. */
  function ScaledMotion(m: Motion, f: Dbl): Matx44 {
    seq(16, k requires 0 <= k < 16 => if k % 4 == 3 && k < 12 then Mul(Num(m[k]), f) else Num(m[k]))
  }

  /** Scaling by exactly 1 changes no entry; scaling by NaN turns the translation, and only it, into NaN. */
  lemma ScaledMotionByOneOrNaN(m: Motion)
    ensures ScaledMotion(m, Num(1.0)) == seq(16, k requires 0 <= k < 16 => Num(m[k]))
    ensures forall k :: 0 <= k < 16 && k % 4 == 3 && k < 12 ==> ScaledMotion(m, NaN)[k] == NaN
  {
  }

  /** The upper left 3x3 block, row after row, and the translation column of a transformation. */
  function RotationOf(m: Matx44): (r: seq<Dbl>)
    ensures |r| == 9
  {
    seq(9, k requires 0 <= k < 9 => m[4 * (k / 3) + k % 3])
  }

  function TranslationColumn(m: Matx44): Vec3D {
    Vec3D(m[3], m[7], m[11])
  }

  /** What `VisualOdometryMono::process` reports for an image. */
  datatype Outcome = Failed | Succeeded(motion: Motion, points: seq<Vec3>, inlierIndices: seq<int>)

  /** The inlier indices the visual odometry reports index its points. */
  predicate OutcomeValid(o: Outcome) {
    o.Succeeded? ==> forall k :: 0 <= k < |o.inlierIndices| ==> 0 <= o.inlierIndices[k] < |o.points|
  }

  /** The visual odometry's ground plane: camera height, pitch and roll. */
  datatype GroundPlane = GroundPlane(height: real, pitch: real, roll: real)

  /** `visoFailsConsecMax` */
  const FailsConsecMax: nat := 5

  const ErrEmpty := "Image must not be empty."
  const ErrType := "Image type must be \"CV_8UC1\" or \"CV_8UC3\"."

  /** Whether the next image replaces the odometry's newest one: the last one failed, and not too often in a row. */
  predicate Replace(successPrev: bool, failsConsec: nat) {
    !successPrev && failsConsec < FailsConsecMax
  }

  /** The consecutive-failure counter after an image the odometry handled with outcome `success`. */
  function FailsAfter(successPrev: bool, failsConsec: nat, success: bool): (n: nat)
    ensures success ==> n == 0
    ensures !success && !Replace(successPrev, failsConsec) ==> n == 1
    ensures !success && Replace(successPrev, failsConsec) ==> n == failsConsec + 1
  {
    if success then 0 else if !Replace(successPrev, failsConsec) then 1 else failsConsec + 1
  }

  /** Whatever the counter was, after any image it is at most `visoFailsConsecMax`. */
  lemma FailsBounded(successPrev: bool, failsConsec: nat, success: bool)
    ensures FailsAfter(successPrev, failsConsec, success) <= FailsConsecMax
  {
  }

  /** The counter after `n` more failed images, starting after a failed one with counter `failsConsec`. */
  function FailsAfterRun(failsConsec: nat, n: nat): nat
    decreases n
  {
    if n == 0 then failsConsec else FailsAfterRun(FailsAfter(false, failsConsec, false), n - 1)
  }

  /**
   * In a run of failures the counter cycles through 1 to `visoFailsConsecMax`:
   * the kept image is replaced until the counter reaches the maximum, and
   * then given up, so the odometry never keeps an image for more than
   * `visoFailsConsecMax` failed attempts.
   */
  lemma {:induction false} FailureRunCycles(failsConsec: nat, n: nat)
    requires 1 <= failsConsec <= FailsConsecMax
    ensures FailsAfterRun(failsConsec, n) == (failsConsec - 1 + n) % FailsConsecMax + 1
    ensures !Replace(false, FailsAfterRun(failsConsec, n)) <==> (failsConsec - 1 + n) % FailsConsecMax == FailsConsecMax - 1
    decreases n
  {
    if n > 0 {
      var next := FailsAfter(false, failsConsec, false);
      assert next == failsConsec % FailsConsecMax + 1;
      FailureRunCycles(next, n - 1);
      ModShift(failsConsec, n - 1);
    }
  }

  lemma ModShift(f: nat, m: nat)
    requires 1 <= f <= FailsConsecMax
    ensures (f % FailsConsecMax + m) % FailsConsecMax == (f + m) % FailsConsecMax
  {
    if f == FailsConsecMax {
      assert (f + m) % FailsConsecMax == m % FailsConsecMax;
    }
  }

  /** The scaled 3D points `getPoints3D` returns: three rows of coordinates, each multiplied by the scale factor. */
  function ScaledPoints(points: seq<Vec3>, f: Dbl): (r: seq<seq<Dbl>>)
    ensures |r| == 3 && forall c :: 0 <= c < 3 ==> |r[c]| == |points|
  {
    [seq(|points|, i requires 0 <= i < |points| => Mul(Num(points[i].x0), f)),
     seq(|points|, i requires 0 <= i < |points| => Mul(Num(points[i].x1), f)),
     seq(|points|, i requires 0 <= i < |points| => Mul(Num(points[i].x2), f))]
  }

  /** Without scale correction the points are the odometry's coordinates; with a NaN factor every one is NaN. */
  lemma ScaledPointsByOneOrNaN(points: seq<Vec3>, c: int, i: int)
    requires 0 <= c < 3 && 0 <= i < |points|
    ensures ScaledPoints(points, Num(1.0))[c][i] ==
              Num(if c == 0 then points[i].x0 else if c == 1 then points[i].x1 else points[i].x2)
    ensures ScaledPoints(points, NaN)[c][i] == NaN
  {
  }

  /** `cv::Vec3b`: blue, green, red. */
  datatype Color = Color(b: int, g: int, r: int)

  const Red := Color(0, 0, 255)
  const Cyan := Color(255, 255, 0)

  /** The colour in the three bands from red over yellow and green to cyan, the channels truncated to integers. */
  function BandColor(distRel: real): (c: Color)
    ensures 0 <= c.b <= 255 && 0 <= c.g <= 255 && 0 <= c.r <= 255
    ensures distRel < 0.0 ==> c == Red
    ensures distRel >= 3.0 ==> c == Cyan
    ensures 0.0 <= distRel < 1.0 ==> c.b == 0 && c.r == 255
    ensures 1.0 <= distRel < 2.0 ==> c.b == 0 && c.g == 255
    ensures 2.0 <= distRel < 3.0 ==> c.g == 255 && c.r == 0
  {
    if distRel < 0.0 then Red
    else if distRel < 1.0 then Color(0, (distRel * 255.0).Floor, 255)
    else if distRel < 2.0 then Color(0, 255, ((2.0 - distRel) * 255.0).Floor)
    else if distRel < 3.0 then Color(((distRel - 2.0) * 255.0).Floor, 255, 0)
    else Cyan
  }

  /**
   * `DistanceToColor(distRed, distCyan)(dist)`. With equal limits the
   * relative distance is an infinity, or NaN at the limit itself, and every
   * comparison with NaN fails, so that gives cyan.
   */
  function DistanceToColor(distRed: real, distCyan: real, dist: real): (c: Color)
    ensures 0 <= c.b <= 255 && 0 <= c.g <= 255 && 0 <= c.r <= 255
  {
    if distCyan == distRed then (if dist < distRed then Red else Cyan)
    else BandColor(3.0 * (dist - distRed) / (distCyan - distRed))
  }

  /** With the limits in order, everything nearer than `distRed` is red and everything from `distCyan` on is cyan. */
  lemma DistanceToColorEnds(distRed: real, distCyan: real, dist: real)
    requires distRed < distCyan
    ensures dist < distRed ==> DistanceToColor(distRed, distCyan, dist) == Red
    ensures dist >= distCyan ==> DistanceToColor(distRed, distCyan, dist) == Cyan
    ensures distRed <= dist < distCyan ==> DistanceToColor(distRed, distCyan, dist) != Cyan
  {
    var d := distCyan - distRed;
    var rel := 3.0 * (dist - distRed) / d;
    assert rel * d == 3.0 * (dist - distRed);
    if dist < distRed {
      assert rel < 0.0;
    }
    if dist >= distCyan {
      assert rel >= 3.0;
    }
    if distRed <= dist < distCyan {
      Odometry.RatioBetween(3.0 * (dist - distRed), d, -1.0, 3.0);
      assert 0.0 <= rel < 3.0;
    }
  }

  /** `Sparse3D`, without the flight commands. */
  class Sparse3D {
    var sizeImage: (int, int)
    var scaleFactor: Dbl
    var pose: Matx44
    var visoSuccessPrev: bool
    var visoFailsConsec: nat
    var rotationOnboardPrev: Vec3
    var translationOnboardPrev: Vec3
    var ground: GroundPlane
    var lastOutcome: Outcome

    /** The counter never exceeds its start, and after a success the odometry's results are at hand. */
    ghost predicate Valid()
      reads this
    {
      visoFailsConsec <= FailsConsecMax + 1 &&
      OutcomeValid(lastOutcome) && (visoSuccessPrev ==> lastOutcome.Succeeded?)
    }

    /** The constructor, without the camera parameters it hands to the visual odometry. */
    constructor ()
      ensures Valid()
      ensures sizeImage == (0, 0) && scaleFactor == Num(1.0) && pose == Eye()
      ensures !visoSuccessPrev && visoFailsConsec == FailsConsecMax + 1
      ensures rotationOnboardPrev == Zero3 && translationOnboardPrev == Zero3
      ensures lastOutcome == Failed
    {
      sizeImage := (0, 0);
      scaleFactor := Num(1.0);
      pose := Eye();
      visoSuccessPrev := false;
      visoFailsConsec := FailsConsecMax + 1;
      rotationOnboardPrev := Zero3;
      translationOnboardPrev := Zero3;
      ground := GroundPlane(0.0, 0.0, 0.0);
      lastOutcome := Failed;
    }

    /**
     * `processImageFront(image, rotationGlobal, translationGlobal)`:
     * refuses an empty image or one that is neither grey nor colour.
     * Otherwise hands the ground plane to the odometry, counts its outcome,
     * corrects and accumulates a successful motion, moves the previous
     * on-board pose on unless the image replaced the newest one, and
     * returns the success.
     */
    method ProcessImageFront(image: Images.Mat, rotation: Vec3, translation: Vec3, outcome: Outcome,
                             inv: Matx44 -> Matx44, sqrt: real -> real) returns (r: Result<bool>)
      requires Valid() && OutcomeValid(outcome)
      modifies this
      ensures r.Err? <==> image.Empty() || (image.typ != GpuRuntime.CV_8UC1 && image.typ != GpuRuntime.CV_8UC3)
      ensures r.Err? ==> r.msg == (if image.Empty() then ErrEmpty else ErrType) && unchanged(this)
      ensures Valid()
      ensures r.Ok? ==> r.value == outcome.Succeeded? && Counted(image, rotation, translation, outcome)
      ensures r.Ok? ==> Accumulated(translation, outcome, inv, sqrt)
      ensures r.Ok? ==> visoFailsConsec <= FailsConsecMax
    {
      if image.Empty() {
        return Err(ErrEmpty);
      }
      if image.typ != GpuRuntime.CV_8UC1 && image.typ != GpuRuntime.CV_8UC3 {
        return Err(ErrType);
      }
      sizeImage := (image.cols, image.rows);
      ground := GroundPlane(0.04 - translation.x1, rotation.x0, rotation.x2);
      var replace := Replace(visoSuccessPrev, visoFailsConsec);
      FailsBounded(visoSuccessPrev, visoFailsConsec, outcome.Succeeded?);
      visoFailsConsec := FailsAfter(visoSuccessPrev, visoFailsConsec, outcome.Succeeded?);
      visoSuccessPrev := outcome.Succeeded?;
      if outcome.Succeeded? {
        lastOutcome := outcome;
        var f := Odometry.ScaleFactor(translation.Minus(translationOnboardPrev), TranslationOf(outcome.motion), sqrt);
        var accumulated := MatMul(pose, inv(ScaledMotion(outcome.motion, f)));
        scaleFactor, pose := f, accumulated;
      }
      if !replace {
        rotationOnboardPrev := rotation;
        translationOnboardPrev := translation;
      }
      r := Ok(visoSuccessPrev);
    }

    /**
     * The bookkeeping of `processImageFront`: the image size, the ground
     * plane from the on-board pose, the outcome and the failure counter, and
     * the previous on-board pose moved on exactly when the image did not
     * replace the newest one.
     */
    twostate predicate Counted(image: Images.Mat, rotation: Vec3, translation: Vec3, outcome: Outcome)
      reads this
    {
      var replace := Replace(old(visoSuccessPrev), old(visoFailsConsec));
      sizeImage == (image.cols, image.rows) &&
      ground == GroundPlane(0.04 - translation.x1, rotation.x0, rotation.x2) &&
      visoSuccessPrev == outcome.Succeeded? &&
      visoFailsConsec == FailsAfter(old(visoSuccessPrev), old(visoFailsConsec), outcome.Succeeded?) &&
      rotationOnboardPrev == (if replace then old(rotationOnboardPrev) else rotation) &&
      translationOnboardPrev == (if replace then old(translationOnboardPrev) else translation)
    }

    /**
     * The motion part of `processImageFront`: on success the scale factor
     * compares the on-board translation since the previous pose with the
     * odometry's, and the pose accumulates the inverse of the scaled motion;
     * on failure both stay.
     */
    twostate predicate Accumulated(translation: Vec3, outcome: Outcome, inv: Matx44 -> Matx44, sqrt: real -> real)
      reads this
    {
      match outcome
      case Failed =>
        scaleFactor == old(scaleFactor) && pose == old(pose) && lastOutcome == old(lastOutcome)
      case Succeeded(motion, _, _) =>
        scaleFactor == Odometry.ScaleFactor(translation.Minus(old(translationOnboardPrev)), TranslationOf(motion), sqrt) &&
        pose == MatMul(old(pose), inv(ScaledMotion(motion, scaleFactor))) &&
        lastOutcome == outcome
    }

    /**
     * `getPoints3D(points3D, inliers)`: nothing after a failure; otherwise
     * the odometry's 3D points scaled by the scale factor and one flag per
     * point, set exactly for the inliers.
     */
    method GetPoints3D() returns (points3D: seq<seq<Dbl>>, inliers: seq<bool>)
      requires Valid()
      ensures !visoSuccessPrev ==> points3D == [] && inliers == []
      ensures visoSuccessPrev ==> points3D == ScaledPoints(lastOutcome.points, scaleFactor)
      ensures visoSuccessPrev ==> |inliers| == |lastOutcome.points| &&
                                  forall i :: 0 <= i < |inliers| ==> (inliers[i] <==> i in lastOutcome.inlierIndices)
    {
      if !visoSuccessPrev {
        return [], [];
      }
      var numPoints := |lastOutcome.points|;
      points3D := ScaledPoints(lastOutcome.points, scaleFactor);
      var indices := lastOutcome.inlierIndices;
      var flags := new bool[numPoints](_ => false);
      for k := 0 to |indices|
        invariant forall i :: 0 <= i < numPoints ==> (flags[i] <==> i in indices[..k])
      {
        assert indices[..k + 1] == indices[..k] + [indices[k]];
        flags[indices[k]] := true;
      }
      assert indices[..|indices|] == indices;
      inliers := flags[..];
    }

    /**
     * `getMotion(rotationRelative, translationRelative)`: NaN after a
     * failure; otherwise the rotation of the odometry's last motion and its
     * translation times the scale factor.
     */
    method GetMotion() returns (rotationRelative: seq<Dbl>, translationRelative: Vec3D)
      requires Valid()
      ensures !visoSuccessPrev ==> rotationRelative == seq(9, _ => NaN) && translationRelative == NaN3
      ensures visoSuccessPrev ==>
                var m := ScaledMotion(lastOutcome.motion, scaleFactor);
                rotationRelative == RotationOf(m) && translationRelative == TranslationColumn(m)
    {
      if !visoSuccessPrev {
        return seq(9, _ => NaN), NaN3;
      }
      var m := lastOutcome.motion;
      rotationRelative := seq(9, k requires 0 <= k < 9 => Num(m[4 * (k / 3) + k % 3]));
      translationRelative := Vec3D(Mul(Num(m[3]), scaleFactor), Mul(Num(m[7]), scaleFactor),
                                   Mul(Num(m[11]), scaleFactor));
    }

    /** `getPose(rotationAbsolute, translationAbsolute)`: NaN after a failure, otherwise the accumulated pose. */
    method GetPose() returns (rotationAbsolute: seq<Dbl>, translationAbsolute: Vec3D)
      requires Valid()
      ensures !visoSuccessPrev ==> rotationAbsolute == seq(9, _ => NaN) && translationAbsolute == NaN3
      ensures visoSuccessPrev ==> rotationAbsolute == RotationOf(pose) && translationAbsolute == TranslationColumn(pose)
    {
      if !visoSuccessPrev {
        return seq(9, _ => NaN), NaN3;
      }
      rotationAbsolute := RotationOf(pose);
      translationAbsolute := TranslationColumn(pose);
    }

    /** `resetPose()`: the identity, nothing else changes. */
    method ResetPose()
      requires Valid()
      modifies this
      ensures Valid() && pose == Eye()
      ensures sizeImage == old(sizeImage) && scaleFactor == old(scaleFactor)
      ensures visoSuccessPrev == old(visoSuccessPrev) && visoFailsConsec == old(visoFailsConsec)
      ensures rotationOnboardPrev == old(rotationOnboardPrev) && translationOnboardPrev == old(translationOnboardPrev)
      ensures ground == old(ground) && lastOutcome == old(lastOutcome)
    {
      pose := Eye();
    }
  }
}
