// The commands sent to the AR.Drone 2.0: a movement twist, a maneuver, an LED
// animation, and four PID controllers that turn position errors into movement.

module Commands {
  import opened Doubles
  import Controller

  /** `geometry_msgs::Twist`: linear (forward, left, up) and angular velocities. */
  datatype Twist = Twist(linear: Vec3, angular: Vec3)

  const Still := Twist(Zero3, Zero3)

  /** Codes of the maneuver enumeration (the others, 0 to 19, are flips and dances). */
  const ManeuverNone: int := 255
  const ManeuverTakeOff: int := 253
  const ManeuverLand: int := 254

  /** Code of "no LED animation" (the animations are 0 to 13). */
  const LedNone: int := 255

  /** The LED frequency (Hertz) and duration (seconds) the constructor sets. */
  const LedFrequencyDefault: real := 4.0
  const LedDurationDefault: int := 5

  /** `DroneCommands` */
  class DroneCommands {
    var movement: Twist
    var maneuver: int
    var ledAnimation: int
    var ledFrequency: real
    var ledDuration: int
    const controllerLinX: Controller.PID
    const controllerLinY: Controller.PID
    const controllerLinZ: Controller.PID
    const controllerAngZ: Controller.PID

    /** The four controllers are separate objects, none of them the commands themselves. */
    ghost predicate Valid()
      reads this
    {
      controllerLinX != controllerLinY && controllerLinX != controllerLinZ && controllerLinX != controllerAngZ &&
      controllerLinY != controllerLinZ && controllerLinY != controllerAngZ && controllerLinZ != controllerAngZ
    }

    /** A controller with gains `kP`, `kI`, `kD`, limits [-uMax, uMax] and a fresh state. */
    static predicate Fresh(c: Controller.PID, kP: real, kI: real, kD: real, uMax: real)
      reads c
    {
      c.kP == kP && c.kI == kI && c.kD == kD && c.uMax == uMax && c.uMin == -uMax &&
      !c.disableIntegrator && c.errorIntegral == 0.0 && c.errorPrevious == NaN && c.timer == Stopped
    }

    constructor ()
      ensures Valid() && fresh(controllerLinX) && fresh(controllerLinY) && fresh(controllerLinZ) && fresh(controllerAngZ)
      ensures Fresh(controllerLinX, 0.10, 0.05, 0.15, 0.5) && Fresh(controllerLinY, 0.10, 0.05, 0.15, 0.5)
      ensures Fresh(controllerLinZ, 0.60, 0.50, 0.50, 1.0) && Fresh(controllerAngZ, 1.00, 2.00, 0.30, 1.0)
      ensures ledFrequency == LedFrequencyDefault && ledDuration == LedDurationDefault
      ensures movement == Still && maneuver == ManeuverNone && ledAnimation == LedNone
    {
      Controller.DblMinBelowMax();
      controllerLinX := new Controller.PID(0.10, 0.05, 0.15, 0.5, Controller.DefaultUMin);
      controllerLinY := new Controller.PID(0.10, 0.05, 0.15, 0.5, Controller.DefaultUMin);
      controllerLinZ := new Controller.PID(0.60, 0.50, 0.50, 1.0, Controller.DefaultUMin);
      controllerAngZ := new Controller.PID(1.00, 2.00, 0.30, 1.0, Controller.DefaultUMin);
      ledFrequency := LedFrequencyDefault;
      ledDuration := LedDurationDefault;
      movement := Still;
      maneuver := ManeuverNone;
      ledAnimation := LedNone;
    }

    /** `hover()`: no movement and no maneuver; the LED animation is kept. */
    method Hover()
      modifies this
      ensures movement == Still && maneuver == ManeuverNone
      ensures ledAnimation == old(ledAnimation) && ledFrequency == old(ledFrequency) && ledDuration == old(ledDuration)
    {
      movement := Still;
      maneuver := ManeuverNone;
    }

    /** `reset()`: `hover()` and no LED animation. */
    method Reset()
      modifies this
      ensures movement == Still && maneuver == ManeuverNone && ledAnimation == LedNone
      ensures ledFrequency == old(ledFrequency) && ledDuration == old(ledDuration)
    {
      Hover();
      ledAnimation := LedNone;
    }

    /** `controlLinX(error)`: forward velocity from its controller; nothing else of the commands changes. */
    method ControlLinX(error: Dbl, now: real)
      modifies this, controllerLinX
      ensures movement == old(movement).(linear := old(movement).linear.(x0 := movement.linear.x0))
      ensures movement.linear.x0 == old(controllerLinX.Command(error, now))
      ensures controllerLinX.Stepped(error, now)
      ensures maneuver == old(maneuver) && ledAnimation == old(ledAnimation)
      ensures ledFrequency == old(ledFrequency) && ledDuration == old(ledDuration)
    {
      var u := controllerLinX.Control(error, now);
      movement := movement.(linear := movement.linear.(x0 := u));
    }

    /** `controlLinY(error)`: left velocity from its controller. */
    method ControlLinY(error: Dbl, now: real)
      modifies this, controllerLinY
      ensures movement == old(movement).(linear := old(movement).linear.(x1 := movement.linear.x1))
      ensures movement.linear.x1 == old(controllerLinY.Command(error, now))
      ensures controllerLinY.Stepped(error, now)
      ensures maneuver == old(maneuver) && ledAnimation == old(ledAnimation)
      ensures ledFrequency == old(ledFrequency) && ledDuration == old(ledDuration)
    {
      var u := controllerLinY.Control(error, now);
      movement := movement.(linear := movement.linear.(x1 := u));
    }

    /** `controlLinZ(error)`: upward velocity from its controller. */
    method ControlLinZ(error: Dbl, now: real)
      modifies this, controllerLinZ
      ensures movement == old(movement).(linear := old(movement).linear.(x2 := movement.linear.x2))
      ensures movement.linear.x2 == old(controllerLinZ.Command(error, now))
      ensures controllerLinZ.Stepped(error, now)
      ensures maneuver == old(maneuver) && ledAnimation == old(ledAnimation)
      ensures ledFrequency == old(ledFrequency) && ledDuration == old(ledDuration)
    {
      var u := controllerLinZ.Control(error, now);
      movement := movement.(linear := movement.linear.(x2 := u));
    }

    /** `controlAngZ(error)`: counter-clockwise yaw rate from its controller. */
    method ControlAngZ(error: Dbl, now: real)
      modifies this, controllerAngZ
      ensures movement == old(movement).(angular := old(movement).angular.(x2 := movement.angular.x2))
      ensures movement.angular.x2 == old(controllerAngZ.Command(error, now))
      ensures controllerAngZ.Stepped(error, now)
      ensures maneuver == old(maneuver) && ledAnimation == old(ledAnimation)
      ensures ledFrequency == old(ledFrequency) && ledDuration == old(ledDuration)
    {
      var u := controllerAngZ.Control(error, now);
      movement := movement.(angular := movement.angular.(x2 := u));
    }

    /** A controller after `reset()`, with its gains and limits kept. */
    static twostate predicate WasReset(c: Controller.PID)
      reads c
    {
      c.Settings() == old(c.Settings()) && c.errorIntegral == 0.0 && c.errorPrevious == NaN && c.timer == Stopped
    }

    /** `controllersReset()`: all four controllers reset; the commands themselves are kept. */
    method ControllersReset()
      requires Valid()
      modifies controllerLinX, controllerLinY, controllerLinZ, controllerAngZ
      ensures WasReset(controllerLinX) && WasReset(controllerLinY) && WasReset(controllerLinZ) && WasReset(controllerAngZ)
    {
      controllerLinX.Reset();
      controllerLinY.Reset();
      controllerLinZ.Reset();
      controllerAngZ.Reset();
    }

    /** `disableIntegrator` of a controller set to `flag`, nothing else of it changed. */
    static twostate predicate IntegratorSet(c: Controller.PID, flag: bool)
      reads c
    {
      c.kP == old(c.kP) && c.kI == old(c.kI) && c.kD == old(c.kD) && c.uMax == old(c.uMax) && c.uMin == old(c.uMin) &&
      c.errorIntegral == old(c.errorIntegral) && c.errorPrevious == old(c.errorPrevious) && c.timer == old(c.timer) &&
      c.disableIntegrator == flag
    }

    method SetIntegrators(disable: bool)
      requires Valid()
      modifies controllerLinX, controllerLinY, controllerLinZ, controllerAngZ
      ensures IntegratorSet(controllerLinX, disable) && IntegratorSet(controllerLinY, disable)
      ensures IntegratorSet(controllerLinZ, disable) && IntegratorSet(controllerAngZ, disable)
    {
      controllerLinX.disableIntegrator := disable;
      controllerLinY.disableIntegrator := disable;
      controllerLinZ.disableIntegrator := disable;
      controllerAngZ.disableIntegrator := disable;
    }

    /** `controllersIntegratorDisable()` */
    method ControllersIntegratorDisable()
      requires Valid()
      modifies controllerLinX, controllerLinY, controllerLinZ, controllerAngZ
      ensures IntegratorSet(controllerLinX, true) && IntegratorSet(controllerLinY, true)
      ensures IntegratorSet(controllerLinZ, true) && IntegratorSet(controllerAngZ, true)
    {
      SetIntegrators(true);
    }

    /** `controllersIntegratorEnable()` */
    method ControllersIntegratorEnable()
      requires Valid()
      modifies controllerLinX, controllerLinY, controllerLinZ, controllerAngZ
      ensures IntegratorSet(controllerLinX, false) && IntegratorSet(controllerLinY, false)
      ensures IntegratorSet(controllerLinZ, false) && IntegratorSet(controllerAngZ, false)
    {
      SetIntegrators(false);
    }
  }
}
