// The scan manoeuvre of the monocular dense 3D reconstruction: hover and
// buffer images before a height change, change height under closed-loop
// control (stabilised not at all, by on-board odometry or by visual
// odometry), hover and buffer images after it, then hand the buffers to the
// reconstruction. The wall clock is the input `now` (milliseconds); the
// visual odometry's outcome, the colour conversion, `sqrt`, `sin` and `cos`
// are inputs too.

module Dense3D {
  import opened Doubles
  import opened Wrappers
  import Trackers
  import Controller
  import Commands
  import Odometry
  import Images
  import GpuRuntime

  datatype Stabilization = StabilizationNone | StabilizationVisual | StabilizationOnboard

  datatype State = BeforeHeightChange | DuringHeightChange | AfterHeightChange | Processing | Inactive

  /**
   * What `VisualOdometryMono::process` reports for an image during the
   * height change: failure, or the translation column of the motion since
   * the last image before the height change.
   */
  datatype Viso = Failed | Succeeded(translation: Vec3)

  /** The images buffered before and after the height change. */
  const NumberHover: int := 3

  /** The buffered pose the on-board stabilisation holds on to. */
  const IndexReference: int := NumberHover / 2

  /** The time constant of the visual odometry's error filters, in seconds. */
  const ErrorTau: real := 0.05

  const ErrEmpty := "Image must not be empty."
  const ErrType := "Image type must be \"CV_8UC1\" or \"CV_8UC3\"."

  /** The yaw error brought into [-pi, pi] by one turn either way. */
  function WrapYaw(e: real): real {
    var e1 := if e > CvPi then e - 2.0 * CvPi else e;
    if e1 < -CvPi then e1 + 2.0 * CvPi else e1
  }

  /**
   * The difference of two yaws in [-pi, pi] lies in [-3 pi, 3 pi]; one turn
   * brings it into [-pi, pi] and keeps the angle, and an error already
   * there is kept as it is.
   */
  lemma WrapYawRange(e: real)
    requires -3.0 * CvPi <= e <= 3.0 * CvPi
    ensures -CvPi <= WrapYaw(e) <= CvPi
    ensures WrapYaw(e) == e || WrapYaw(e) == e - 2.0 * CvPi || WrapYaw(e) == e + 2.0 * CvPi
    ensures -CvPi <= e <= CvPi ==> WrapYaw(e) == e
  {
  }

  /** `errorUp`: the altitude still to climb, with y pointing down in both poses. */
  function ErrorUp(translationBefore: Vec3, translation: Vec3, altitudeDelta: real): real {
    -translationBefore.x1 - -translation.x1 + altitudeDelta
  }

  /** `errorYaw`: the yaw back to the last buffered one, wrapped once. */
  function ErrorYaw(rotationBefore: Vec3, rotation: Vec3): real {
    WrapYaw(-rotationBefore.x1 - -rotation.x1)
  }

  /**
   * The "crank" of the height control: the integrator flag and the upward
   * velocity after the controller's command `z`.
   */
  function Crank(altitudeDelta: real, errorUp: real, z: real): (r: (bool, real))
    ensures 0.0 < altitudeDelta && errorUp > altitudeDelta * 0.25 ==>
              r == (z < 0.75, if z < 0.75 then 0.75 else z)
    ensures 0.0 > altitudeDelta && errorUp < altitudeDelta * 0.25 ==>
              r == (z > -0.75, if z > -0.75 then -0.75 else z)
    ensures (!(0.0 < altitudeDelta && errorUp > altitudeDelta * 0.25) &&
             !(0.0 > altitudeDelta && errorUp < altitudeDelta * 0.25)) ==> r == (false, z)
  {
    var (disable1, z1) := if 0.0 < altitudeDelta && errorUp > altitudeDelta * 0.25 && z < 0.75 then (true, 0.75)
                          else (false, z);
    if 0.0 > altitudeDelta && errorUp < altitudeDelta * 0.25 && z1 > -0.75 then (true, -0.75) else (disable1, z1)
  }

  /** The forward and left errors of the stabilisation in use. */
  function StabilizationErrors(stabilization: Stabilization, translation: Vec3, translationReference: Vec3,
                               rotation: Vec3, trig: Odometry.Trig, visoForward: Dbl, visoLeft: Dbl): (r: (Dbl, Dbl))
    ensures stabilization == StabilizationNone ==> r == (Num(0.0), Num(0.0))
    ensures stabilization == StabilizationVisual ==> r == (visoForward, visoLeft)
    ensures stabilization == StabilizationOnboard ==> r.0.Num? && r.1.Num?
  {
    match stabilization
    case StabilizationNone => (Num(0.0), Num(0.0))
    case StabilizationOnboard =>
      var local := Odometry.RotateTranslation(translation.Minus(translationReference), rotation.x1, trig);
      (Num(-local.x2), Num(local.x0))
    case StabilizationVisual => (visoForward, visoLeft)
  }

  /** On-board stabilisation at the reference pose has nothing to correct. */
  lemma OnboardAtReference(translation: Vec3, rotation: Vec3, trig: Odometry.Trig)
    ensures StabilizationErrors(StabilizationOnboard, translation, translation, rotation, trig, NaN, NaN) ==
            (Num(0.0), Num(0.0))
  {
    assert translation.Minus(translation) == Zero3;
  }

  /**
   * The completion test of the height change as written: every error within
   * a fifth of `altitudeDelta` (the forward and left ones only when
   * stabilised, the visual ones only once valid) and the yaw within 5 degrees.
   */
  predicate CompletedAsWritten(stabilization: Stabilization, visoValid: bool, errorForward: Dbl, errorLeft: Dbl,
                               errorUp: real, errorYaw: real, altitudeDelta: real) {
    (stabilization != StabilizationVisual || visoValid) &&
    (stabilization == StabilizationNone || Less(Fabs(errorForward), Num(0.20 * altitudeDelta))) &&
    (stabilization == StabilizationNone || Less(Fabs(errorLeft), Num(0.20 * altitudeDelta))) &&
    Odometry.Abs(errorUp) < 0.20 * altitudeDelta &&
    Odometry.Abs(errorYaw) < 5.0 / 180.0 * CvPi
  }

  /**
   * The tolerance is a fifth of a signed height change: for a descent
   * (`altitudeDelta < 0`, which the crank handles) no error can be within
   * it, so the drone never leaves the height change, even with every error 0.
   */
  lemma DescentNeverCompletesAsWritten(stabilization: Stabilization, visoValid: bool, errorForward: Dbl,
                                       errorLeft: Dbl, errorUp: real, errorYaw: real, altitudeDelta: real)
    requires altitudeDelta < 0.0
    ensures !CompletedAsWritten(stabilization, visoValid, errorForward, errorLeft, errorUp, errorYaw, altitudeDelta)
    ensures !CompletedAsWritten(StabilizationNone, true, Num(0.0), Num(0.0), 0.0, 0.0, altitudeDelta)
  {
  }

  /** The completion test with the tolerance a fifth of the height change's magnitude. */
  predicate Completed(stabilization: Stabilization, visoValid: bool, errorForward: Dbl, errorLeft: Dbl,
                      errorUp: real, errorYaw: real, altitudeDelta: real) {
    var tolerance := 0.20 * Odometry.Abs(altitudeDelta);
    (stabilization != StabilizationVisual || visoValid) &&
    (stabilization == StabilizationNone || Less(Fabs(errorForward), Num(tolerance))) &&
    (stabilization == StabilizationNone || Less(Fabs(errorLeft), Num(tolerance))) &&
    Odometry.Abs(errorUp) < tolerance &&
    Odometry.Abs(errorYaw) < 5.0 / 180.0 * CvPi
  }

  /**
   * Climbing, the two tests agree; in either direction a height change with
   * every error 0 (and valid visual errors when those are used) completes.
   */
  lemma CompletedProperties(stabilization: Stabilization, visoValid: bool, errorForward: Dbl, errorLeft: Dbl,
                            errorUp: real, errorYaw: real, altitudeDelta: real)
    ensures altitudeDelta > 0.0 ==>
              (Completed(stabilization, visoValid, errorForward, errorLeft, errorUp, errorYaw, altitudeDelta) <==>
               CompletedAsWritten(stabilization, visoValid, errorForward, errorLeft, errorUp, errorYaw, altitudeDelta))
    ensures altitudeDelta != 0.0 && (stabilization != StabilizationVisual || visoValid) ==>
              Completed(stabilization, visoValid, Num(0.0), Num(0.0), 0.0, 0.0, altitudeDelta)
    ensures !Completed(stabilization, visoValid, errorForward, errorLeft, errorUp, errorYaw, 0.0)
  {
    assert 0.0 < 5.0 / 180.0 * CvPi;
  }

  /**
   * The errors the visual odometry feeds to the filters: the scaled forward
   * and left components of its translation, or zero when it failed.
   */
  function VisoErrors(viso: Viso, onboardDelta: Vec3, sqrt: real -> real): (r: (Dbl, Dbl))
    ensures viso.Failed? ==> r == (Num(0.0), Num(0.0))
    ensures viso.Succeeded? ==>
              var f := Odometry.ScaleFactor(onboardDelta, viso.translation, sqrt);
              r == (Mul(Num(viso.translation.x2), f), Mul(Num(-viso.translation.x0), f))
  {
    match viso
    case Failed => (Num(0.0), Num(0.0))
    case Succeeded(t) =>
      var scaleFactor := Odometry.ScaleFactor(onboardDelta, t, sqrt);
      (Mul(Num(t.x2), scaleFactor), Mul(Num(-t.x0), scaleFactor))
  }

  /** When both odometries agree on the length within 10%, the visual translation is taken as it is. */
  lemma VisoErrorsUnscaled(t: Vec3, onboardDelta: Vec3, sqrt: real -> real)
    requires sqrt(Odometry.Norm2(t)) > 0.0
    requires 0.9 * sqrt(Odometry.Norm2(t)) < sqrt(Odometry.Norm2(onboardDelta)) < 1.1 * sqrt(Odometry.Norm2(t))
    ensures VisoErrors(Succeeded(t), onboardDelta, sqrt) == (Num(t.x2), Num(-t.x0))
  {
    Odometry.ScaleFactorOfSimilarLengths(onboardDelta, t, sqrt);
  }

  /** The image the reconstruction buffers: grey images as they are, colour images converted. */
  function Gray(image: Images.Mat, cvtColor: Images.Mat -> Images.Mat): Images.Mat {
    if image.typ == GpuRuntime.CV_8UC1 then image else cvtColor(image)
  }

  /** `Dense3D` */
  /** Buffered images, each with the on-board rotation and translation at the time it was taken. */
  datatype Buffers = Buffers(images: seq<Images.Mat>, rotations: seq<Vec3>, translations: seq<Vec3>)
  {
    /** The i-th image goes with the i-th rotation and translation. */
    predicate Aligned() {
      |rotations| == |translations| == |images|
    }

    function Count(): int {
      |images|
    }

    /** `push_back` on all three. */
    function Push(image: Images.Mat, rotation: Vec3, translation: Vec3): (b: Buffers)
      ensures Aligned() ==> b.Aligned() && b.Count() == Count() + 1
    {
      Buffers(images + [image], rotations + [rotation], translations + [translation])
    }
  }

  const NoBuffers := Buffers([], [], [])

  class Dense3D {
    var altitudeDelta: real
    var stabilization: Stabilization
    var timeHoverBefore: real
    var timeHoverAfter: real
    var timerHover: Timer
    var state: State
    var before: Buffers
    var after: Buffers
    var distance: Images.Mat
    var motionMask: Images.Mat
    const errorVisoForward: Trackers.PT1
    const errorVisoLeft: Trackers.PT1
    var errorVisoValid: bool

    /**
     * The buffers grow together and in step with the state: filling before
     * the height change, full during it, filling after it, both full while
     * processing. The results are never computed, so they stay empty.
     */
    ghost predicate Valid()
      reads this, errorVisoForward, errorVisoLeft
    {
      errorVisoForward != errorVisoLeft && errorVisoForward.Valid() && errorVisoLeft.Valid() &&
      timerHover.Started? &&
      before.Aligned() && before.Count() <= NumberHover && after.Aligned() && after.Count() <= NumberHover &&
      (state == BeforeHeightChange ==> before.Count() < NumberHover && after.Count() == 0) &&
      (state == DuringHeightChange ==> before.Count() == NumberHover && after.Count() == 0) &&
      (state == AfterHeightChange ==> before.Count() == NumberHover && after.Count() < NumberHover) &&
      (state == Processing ==> before.Count() == NumberHover && after.Count() == NumberHover) &&
      distance == Images.EmptyMat && motionMask == Images.EmptyMat
    }

    /**
     * Neither error filter's weight is infinite at `now`: the clock does not
     * read exactly one time constant before their last update.
     */
    predicate FiltersDefined(now: real)
      reads this, errorVisoForward, errorVisoLeft
    {
      errorVisoForward.state.RatioDefined(errorVisoForward.tau, now) &&
      errorVisoLeft.state.RatioDefined(errorVisoLeft.tau, now)
    }

    /** The constructor at time `now`. */
    constructor (now: real)
      ensures Valid() && fresh(errorVisoForward) && fresh(errorVisoLeft)
      ensures altitudeDelta == 0.15 && stabilization == StabilizationNone
      ensures timeHoverBefore == 0.75 && timeHoverAfter == 0.75 && timerHover == Started(now)
      ensures state == Inactive && !errorVisoValid
      ensures before == NoBuffers && after == NoBuffers
      ensures errorVisoForward.tau == ErrorTau && errorVisoForward.state == Trackers.Unset
      ensures errorVisoLeft.tau == ErrorTau && errorVisoLeft.state == Trackers.Unset
    {
      altitudeDelta := 0.15;
      stabilization := StabilizationNone;
      timeHoverBefore := 0.75;
      timeHoverAfter := 0.75;
      timerHover := Started(now);
      state := Inactive;
      before, after := NoBuffers, NoBuffers;
      distance, motionMask := Images.EmptyMat, Images.EmptyMat;
      errorVisoForward := new Trackers.PT1(ErrorTau);
      errorVisoLeft := new Trackers.PT1(ErrorTau);
      errorVisoValid := false;
    }

    /** Hovering before the height change, and long enough since the last buffered image. */
    predicate BuffersBefore(now: real)
      reads this
    {
      state == BeforeHeightChange && timerHover.Started? &&
      timerHover.Toc(now) / 1000.0 > timeHoverBefore / NumberHover as real
    }

    /** The same after the height change. */
    predicate BuffersAfter(now: real)
      reads this
    {
      state == AfterHeightChange && timerHover.Started? &&
      timerHover.Toc(now) / 1000.0 > timeHoverAfter / NumberHover as real
    }

    /**
     * `processImageFront(image, rotationGlobal, translationGlobal)`: refuses
     * an empty image or one that is neither grey nor colour. Otherwise, when
     * due, buffers the grey image and the pose before or after the height
     * change, moving on once a buffer is full; during the height change with
     * visual stabilisation (including right after the last image before it)
     * the visual odometry's outcome updates the error filters.
     */
    method ProcessImageFront(image: Images.Mat, rotation: Vec3, translation: Vec3,
                             cvtColor: Images.Mat -> Images.Mat, viso: Viso, sqrt: real -> real, now: real)
      returns (r: Result<()>)
      requires Valid() && FiltersDefined(now)
      modifies this, errorVisoForward, errorVisoLeft
      ensures r.Err? <==> image.Empty() || (image.typ != GpuRuntime.CV_8UC1 && image.typ != GpuRuntime.CV_8UC3)
      ensures r.Err? ==> r.msg == (if image.Empty() then ErrEmpty else ErrType)
      ensures r.Err? ==> unchanged(this) && unchanged(errorVisoForward) && unchanged(errorVisoLeft)
      ensures Valid()
      ensures altitudeDelta == old(altitudeDelta) && stabilization == old(stabilization)
      ensures timeHoverBefore == old(timeHoverBefore) && timeHoverAfter == old(timeHoverAfter)
      ensures r.Ok? ==> Buffered(image, rotation, translation, cvtColor, now)
      ensures r.Ok? ==> VisoUpdated(viso, translation, sqrt, now)
    {
      if image.Empty() {
        return Err(ErrEmpty);
      }
      if image.typ != GpuRuntime.CV_8UC1 && image.typ != GpuRuntime.CV_8UC3 {
        return Err(ErrType);
      }
      var imageGray := if image.typ == GpuRuntime.CV_8UC1 then image else cvtColor(image);
      BufferBefore(imageGray, rotation, translation, now);
      if state == DuringHeightChange && stabilization == StabilizationVisual {
        VisoProcess(translation, viso, sqrt, now);
      }
      BufferAfter(imageGray, rotation, translation, now);
      r := Ok(());
    }

    /** What the buffering of `processImageFront` did to the buffers, the state and the timer. */
    twostate predicate Buffered(image: Images.Mat, rotation: Vec3, translation: Vec3,
                                cvtColor: Images.Mat -> Images.Mat, now: real)
      reads this
    {
      var dueBefore := old(BuffersBefore(now));
      var dueAfter := old(BuffersAfter(now));
      var gray := Gray(image, cvtColor);
      before == (if dueBefore then old(before).Push(gray, rotation, translation) else old(before)) &&
      after == (if dueAfter then old(after).Push(gray, rotation, translation) else old(after)) &&
      state == (if dueBefore && old(before.Count()) + 1 >= NumberHover then DuringHeightChange
                else if dueAfter && old(after.Count()) + 1 >= NumberHover then Processing
                else old(state)) &&
      timerHover == (if dueBefore || dueAfter then Started(now) else old(timerHover)) &&
      distance == old(distance) && motionMask == old(motionMask)
    }

    /**
     * What the visual odometry step of `processImageFront` did: during the
     * height change with visual stabilisation, the filters measured the
     * outcome's errors and the validity flag records success; otherwise
     * neither changed.
     */
    twostate predicate VisoUpdated(viso: Viso, translation: Vec3, sqrt: real -> real, now: real)
      reads this, errorVisoForward, errorVisoLeft
      requires old(errorVisoForward.Valid() && errorVisoLeft.Valid() && FiltersDefined(now))
    {
      var during := (old(state) == DuringHeightChange ||
                     (old(BuffersBefore(now)) && old(before.Count()) + 1 >= NumberHover)) &&
                    old(stabilization) == StabilizationVisual;
      if during then
        |before.translations| > 0 &&
        var errors := VisoErrors(viso, translation.Minus(before.translations[|before.translations| - 1]), sqrt);
        errorVisoValid == viso.Succeeded? &&
        errorVisoForward.tau == old(errorVisoForward.tau) && errorVisoLeft.tau == old(errorVisoLeft.tau) &&
        errorVisoForward.state == Trackers.PT1Update(old(errorVisoForward.state), old(errorVisoForward.tau), errors.0, now) &&
        errorVisoLeft.state == Trackers.PT1Update(old(errorVisoLeft.state), old(errorVisoLeft.tau), errors.1, now)
      else
        errorVisoValid == old(errorVisoValid) &&
        errorVisoForward.state == old(errorVisoForward.state) && errorVisoForward.tau == old(errorVisoForward.tau) &&
        errorVisoLeft.state == old(errorVisoLeft.state) && errorVisoLeft.tau == old(errorVisoLeft.tau)
    }

    /** The first block of `processImageFront`: buffering before the height change. */
    method BufferBefore(gray: Images.Mat, rotation: Vec3, translation: Vec3, now: real)
      requires Valid()
      modifies this
      ensures Valid()
      ensures var due := old(BuffersBefore(now));
              before == (if due then old(before).Push(gray, rotation, translation) else old(before)) &&
              state == (if due && old(before.Count()) + 1 >= NumberHover then DuringHeightChange else old(state)) &&
              timerHover == (if due then Started(now) else old(timerHover))
      ensures after == old(after)
      ensures altitudeDelta == old(altitudeDelta) && stabilization == old(stabilization)
      ensures timeHoverBefore == old(timeHoverBefore) && timeHoverAfter == old(timeHoverAfter)
      ensures distance == old(distance) && motionMask == old(motionMask) && errorVisoValid == old(errorVisoValid)
    {
      if BuffersBefore(now) {
        before := before.Push(gray, rotation, translation);
        timerHover := Started(now);
        if before.Count() >= NumberHover {
          state := DuringHeightChange;
        }
      }
      assert unchanged(errorVisoForward, errorVisoLeft);
    }

    /** The last block of `processImageFront`: buffering after the height change. */
    method BufferAfter(gray: Images.Mat, rotation: Vec3, translation: Vec3, now: real)
      requires Valid()
      modifies this
      ensures Valid()
      ensures var due := old(BuffersAfter(now));
              after == (if due then old(after).Push(gray, rotation, translation) else old(after)) &&
              state == (if due && old(after.Count()) + 1 >= NumberHover then Processing else old(state)) &&
              timerHover == (if due then Started(now) else old(timerHover))
      ensures before == old(before)
      ensures altitudeDelta == old(altitudeDelta) && stabilization == old(stabilization)
      ensures timeHoverBefore == old(timeHoverBefore) && timeHoverAfter == old(timeHoverAfter)
      ensures distance == old(distance) && motionMask == old(motionMask) && errorVisoValid == old(errorVisoValid)
    {
      if BuffersAfter(now) {
        after := after.Push(gray, rotation, translation);
        timerHover := Started(now);
        if after.Count() >= NumberHover {
          state := Processing;
        }
      }
      assert unchanged(errorVisoForward, errorVisoLeft);
    }

    /**
     * `visoProcess`: the visual odometry's translation, scaled by the
     * on-board translation since the last image before the height change,
     * feeds the error filters; a failure fades them towards zero.
     */
    method VisoProcess(translation: Vec3, viso: Viso, sqrt: real -> real, now: real)
      requires Valid() && FiltersDefined(now) && |before.translations| > 0
      modifies this, errorVisoForward, errorVisoLeft
      ensures Valid() && before == old(before)
      ensures var errors := VisoErrors(viso, translation.Minus(before.translations[|before.translations| - 1]), sqrt);
              errorVisoValid == viso.Succeeded? &&
              errorVisoForward.tau == old(errorVisoForward.tau) && errorVisoLeft.tau == old(errorVisoLeft.tau) &&
              errorVisoForward.state == Trackers.PT1Update(old(errorVisoForward.state), old(errorVisoForward.tau), errors.0, now) &&
              errorVisoLeft.state == Trackers.PT1Update(old(errorVisoLeft.state), old(errorVisoLeft.tau), errors.1, now)
      ensures state == old(state) && timerHover == old(timerHover)
      ensures after == old(after)
      ensures altitudeDelta == old(altitudeDelta) && stabilization == old(stabilization)
      ensures timeHoverBefore == old(timeHoverBefore) && timeHoverAfter == old(timeHoverAfter)
      ensures distance == old(distance) && motionMask == old(motionMask)
    {
      var errors := VisoErrors(viso, translation.Minus(before.translations[|before.translations| - 1]), sqrt);
      errorVisoForward.Measure(errors.0, now);
      errorVisoLeft.Measure(errors.1, now);
      errorVisoValid := viso.Succeeded?;
    }

    /**
     * `getCommands(commands, rotationGlobal, translationGlobal)`: hover while
     * buffering, fly the height change while changing height, leave the
     * commands alone otherwise; true exactly when the commands were set.
     */
    method GetCommands(commands: Commands.DroneCommands, rotation: Vec3, translation: Vec3,
                       trig: Odometry.Trig, now: real) returns (r: bool)
      requires Valid() && commands.Valid()
      modifies this, commands, commands.controllerLinX, commands.controllerLinY
      modifies commands.controllerLinZ, commands.controllerAngZ
      ensures Valid()
      ensures r <==> old(state) != Processing && old(state) != Inactive
      ensures old(state) == BeforeHeightChange || old(state) == AfterHeightChange ==>
                commands.movement == Commands.Still && commands.maneuver == Commands.ManeuverNone &&
                commands.ledAnimation == old(commands.ledAnimation) && unchanged(this) &&
                unchanged(commands.controllerLinX, commands.controllerLinY, commands.controllerLinZ, commands.controllerAngZ)
      ensures old(state) == Processing || old(state) == Inactive ==>
                unchanged(this) && unchanged(commands) &&
                unchanged(commands.controllerLinX, commands.controllerLinY, commands.controllerLinZ, commands.controllerAngZ)
      ensures old(state) == DuringHeightChange ==> FlewHeightChange(commands, rotation, translation, trig, now)
    {
      if state == BeforeHeightChange || state == AfterHeightChange {
        commands.Hover();
      } else if state == DuringHeightChange {
        FlyHeightChange(commands, rotation, translation, trig, now);
      }
      r := state != Inactive && state != Processing;
    }

    /** The forward and left errors a call during the height change uses. */
    function Errors(rotation: Vec3, translation: Vec3, trig: Odometry.Trig): (Dbl, Dbl)
      reads this, errorVisoForward, errorVisoLeft
      requires Valid() && state == DuringHeightChange
    {
      StabilizationErrors(stabilization, translation, before.translations[IndexReference], rotation, trig,
                          errorVisoForward.Value(), errorVisoLeft.Value())
    }

    /** The altitude error a call during the height change uses. */
    function Up(translation: Vec3): real
      reads this, errorVisoForward, errorVisoLeft
      requires Valid() && state == DuringHeightChange
    {
      ErrorUp(before.translations[NumberHover - 1], translation, altitudeDelta)
    }

    /** The yaw error a call during the height change uses. */
    function Yaw(rotation: Vec3): real
      reads this, errorVisoForward, errorVisoLeft
      requires Valid() && state == DuringHeightChange
    {
      ErrorYaw(before.rotations[NumberHover - 1], rotation)
    }

    /**
     * What a call during the height change did: forward and left velocities
     * from their controllers (zero without stabilisation), the upward
     * velocity from its controller and cranked when the drone lags far
     * behind, the yaw rate from its controller, no maneuver; the hover after
     * the height change starts once it is completed.
     */
    twostate predicate FlewHeightChange(commands: Commands.DroneCommands, rotation: Vec3, translation: Vec3,
                                        trig: Odometry.Trig, now: real)
      reads this, errorVisoForward, errorVisoLeft, commands
      reads commands.controllerLinX, commands.controllerLinY, commands.controllerLinZ, commands.controllerAngZ
      requires old(Valid() && state == DuringHeightChange)
    {
      var errors := old(Errors(rotation, translation, trig));
      var up := old(Up(translation));
      var yaw := old(Yaw(rotation));
      var none := old(stabilization) == StabilizationNone;
      var z := old(commands.controllerLinZ.Command(Num(up), now));
      commands.movement.linear ==
        Vec3(if none then 0.0 else old(commands.controllerLinX.Command(errors.0, now)),
             if none then 0.0 else old(commands.controllerLinY.Command(errors.1, now)),
             Crank(old(altitudeDelta), up, z).1) &&
      (if none then unchanged(commands.controllerLinX, commands.controllerLinY)
       else commands.controllerLinX.Stepped(errors.0, now) && commands.controllerLinY.Stepped(errors.1, now)) &&
      Climbed(commands, old(altitudeDelta), up, yaw, now) &&
      Progressed(Completed(old(stabilization), old(errorVisoValid), errors.0, errors.1, up, yaw, old(altitudeDelta)), now)
    }

    /** The fields of the reconstruction after a call during the height change that did or did not complete it. */
    twostate predicate Progressed(done: bool, now: real)
      reads this
    {
      state == (if done then AfterHeightChange else old(state)) &&
      timerHover == (if done then Started(now) else old(timerHover)) &&
      before == old(before) && after == old(after) &&
      altitudeDelta == old(altitudeDelta) && stabilization == old(stabilization) &&
      timeHoverBefore == old(timeHoverBefore) && timeHoverAfter == old(timeHoverAfter) &&
      errorVisoValid == old(errorVisoValid) && distance == old(distance) && motionMask == old(motionMask)
    }

    /** The height change case of `getCommands`. */
    method FlyHeightChange(commands: Commands.DroneCommands, rotation: Vec3, translation: Vec3,
                           trig: Odometry.Trig, now: real)
      requires Valid() && state == DuringHeightChange && commands.Valid()
      modifies this, commands, commands.controllerLinX, commands.controllerLinY
      modifies commands.controllerLinZ, commands.controllerAngZ
      ensures Valid()
      ensures FlewHeightChange(commands, rotation, translation, trig, now)
    {
      var errors := Errors(rotation, translation, trig);
      var up := Up(translation);
      var yaw := Yaw(rotation);
      Stabilize(commands, stabilization, errors, now);
      Climb(commands, altitudeDelta, up, yaw, now);
      assert unchanged(this, errorVisoForward, errorVisoLeft);
      var done := Completed(stabilization, errorVisoValid, errors.0, errors.1, up, yaw, altitudeDelta);
      Progress(done, now);
    }

    /** The end of the height change case: once completed, hover after the height change. */
    method Progress(done: bool, now: real)
      requires Valid() && state == DuringHeightChange
      modifies this
      ensures Valid() && Progressed(done, now)
    {
      if done {
        state := AfterHeightChange;
        timerHover := Started(now);
      }
      assert unchanged(errorVisoForward, errorVisoLeft);
    }

    /**
     * `trigger()`: refused while the previous scan is being processed;
     * otherwise clears the buffers and the results and starts hovering before
     * the height change.
     */
    method Trigger(now: real) returns (ok: bool)
      requires Valid()
      modifies this
      ensures Valid()
      ensures ok <==> old(state) != Processing
      ensures !ok ==> unchanged(this)
      ensures ok ==> state == BeforeHeightChange && timerHover == Started(now)
      ensures ok ==> before == NoBuffers && after == NoBuffers
      ensures ok ==> distance == Images.EmptyMat && motionMask == Images.EmptyMat
      ensures ok ==> altitudeDelta == old(altitudeDelta) && stabilization == old(stabilization) &&
                     timeHoverBefore == old(timeHoverBefore) && timeHoverAfter == old(timeHoverAfter) &&
                     errorVisoValid == old(errorVisoValid)
    {
      if state == Processing {
        return false;
      }
      before, after := NoBuffers, NoBuffers;
      distance, motionMask := Images.EmptyMat, Images.EmptyMat;
      state := BeforeHeightChange;
      timerHover := Started(now);
      assert unchanged(errorVisoForward, errorVisoLeft);
      ok := true;
    }

    /**
     * `getResults(distance, motionMask)`: the results while the next scan
     * is not being processed and both exist. They are never computed, so
     * there are none to return.
     */
    method GetResults() returns (ok: bool, distanceOut: Images.Mat, motionMaskOut: Images.Mat)
      requires Valid()
      ensures ok <==> state != Processing && !distance.Empty() && !motionMask.Empty()
      ensures ok ==> distanceOut == distance && motionMaskOut == motionMask
      ensures !ok
    {
      if state != Processing && !distance.Empty() && !motionMask.Empty() {
        return true, distance, motionMask;
      }
      return false, Images.EmptyMat, Images.EmptyMat;
    }

    /** The state change that ends `computeResults`, once the buffers have been written out. */
    method ComputeResults()
      requires Valid() && state == Processing
      modifies this
      ensures Valid() && state == Inactive
      ensures before == old(before) && after == old(after)
      ensures timerHover == old(timerHover) && errorVisoValid == old(errorVisoValid)
      ensures altitudeDelta == old(altitudeDelta) && stabilization == old(stabilization)
      ensures timeHoverBefore == old(timeHoverBefore) && timeHoverAfter == old(timeHoverAfter)
      ensures distance == old(distance) && motionMask == old(motionMask)
    {
      state := Inactive;
      assert unchanged(errorVisoForward, errorVisoLeft);
    }
  }


  /** The forward and left part of the height change. */
  method Stabilize(commands: Commands.DroneCommands, stabilization: Stabilization, errors: (Dbl, Dbl), now: real)
    requires commands.Valid()
    modifies commands, commands.controllerLinX, commands.controllerLinY
    ensures var none := stabilization == StabilizationNone;
            commands.movement == old(commands.movement).(linear := Vec3(
              if none then 0.0 else old(commands.controllerLinX.Command(errors.0, now)),
              if none then 0.0 else old(commands.controllerLinY.Command(errors.1, now)),
              old(commands.movement.linear.x2))) &&
            (if none then unchanged(commands.controllerLinX, commands.controllerLinY)
             else commands.controllerLinX.Stepped(errors.0, now) && commands.controllerLinY.Stepped(errors.1, now))
    ensures commands.maneuver == old(commands.maneuver) && commands.ledAnimation == old(commands.ledAnimation)
  {
    if stabilization == StabilizationNone {
      commands.movement := commands.movement.(linear := commands.movement.linear.(x0 := 0.0, x1 := 0.0));
    } else {
      commands.ControlLinX(errors.0, now);
      commands.ControlLinY(errors.1, now);
    }
  }

  /**
   * What the altitude and yaw part of the height change did: the upward
   * velocity and the yaw rate from their controllers, the upward velocity
   * cranked, the height controller's integrator flag set by the crank, no
   * maneuver, the LED animation kept.
   */
  twostate predicate Climbed(commands: Commands.DroneCommands, altitudeDelta: real, up: real, yaw: real, now: real)
    reads commands, commands.controllerLinZ, commands.controllerAngZ
  {
    var crank := Crank(altitudeDelta, up, old(commands.controllerLinZ.Command(Num(up), now)));
    commands.movement.linear.x2 == crank.1 &&
    commands.movement.angular == old(commands.movement.angular).(x2 := old(commands.controllerAngZ.Command(Num(yaw), now))) &&
    commands.maneuver == Commands.ManeuverNone && commands.ledAnimation == old(commands.ledAnimation) &&
    commands.controllerLinZ.Gains() == old(commands.controllerLinZ.Gains()) &&
    commands.controllerLinZ.errorIntegral == old(commands.controllerLinZ.IntegralAfter(Num(up), now)) &&
    commands.controllerLinZ.errorPrevious == Num(up) && commands.controllerLinZ.timer == Started(now) &&
    commands.controllerLinZ.disableIntegrator == crank.0 &&
    commands.controllerAngZ.Stepped(Num(yaw), now)
  }

  /** The altitude and yaw part of the height change. */
  method Climb(commands: Commands.DroneCommands, altitudeDelta: real, up: real, yaw: real, now: real)
    requires commands.Valid()
    modifies commands, commands.controllerLinZ, commands.controllerAngZ
    ensures Climbed(commands, altitudeDelta, up, yaw, now)
    ensures commands.movement.linear.x0 == old(commands.movement.linear.x0)
    ensures commands.movement.linear.x1 == old(commands.movement.linear.x1)
  {
    commands.ControlLinZ(Num(up), now);
    commands.ControlAngZ(Num(yaw), now);
    var crank := Crank(altitudeDelta, up, commands.movement.linear.x2);
    commands.controllerLinZ.disableIntegrator := crank.0;
    commands.movement := commands.movement.(linear := commands.movement.linear.(x2 := crank.1));
    commands.maneuver := Commands.ManeuverNone;
  }
}
