// Navigation based on landmarks at corridor crossings: a state machine that
// approaches a detected landmark, turns towards the further flight direction
// the landmark stands for, and goes inactive again. The landmark detector and
// the pinhole conversion of its pixel outputs are inputs (type, value,
// forward distance, height above, angle to the left).

module Navigation {
  import opened Doubles
  import Controller
  import Commands

  datatype NavState = Approaching | Rotating | Inactive

  /** The shape of the yaw map: landmark types 0..31 by values 0..127. */
  const Types: int := 32
  const Values: int := 128

  /** The type the detector reports for a landmark seen but not read. */
  const Unreadable: int := 256

  /** The target forward distance to a landmark in meters. */
  const DistForwardTargetDefault: real := 1.5

  /** The initial relative flight angle (degrees) for a landmark type and value: six crossings, NaN elsewhere. */
  function DefaultYawRelative(t: int, v: int): (r: Dbl)
    ensures r.Num? <==> (t, v) in {(4, 34), (4, 18), (4, 0), (8, 30), (8, 50), (1, 0)}
  {
    if t == 4 && v == 34 then Num(150.0)
    else if t == 4 && v == 18 then Num(30.0)
    else if t == 4 && v == 0 then Num(-90.0)
    else if t == 8 && v == 30 then Num(0.0)
    else if t == 8 && v == 50 then Num(-180.0)
    else if t == 1 && v == 0 then Num(90.0)
    else NaN
  }

  /** A new 32 by 128 yaw map filled by the constructor's nested loops and its six assignments. */
  method NewYawMap() returns (m: array2<Dbl>)
    ensures fresh(m) && m.Length0 == Types && m.Length1 == Values
    ensures forall t, v :: 0 <= t < Types && 0 <= v < Values ==> m[t, v] == DefaultYawRelative(t, v)
  {
    m := new Dbl[Types, Values];
    var t := 0;
    while t < Types
      invariant 0 <= t <= Types
      invariant forall i, j :: 0 <= i < t && 0 <= j < Values ==> m[i, j] == NaN
    {
      var v := 0;
      while v < Values
        invariant 0 <= v <= Values
        invariant forall i, j :: 0 <= i < t && 0 <= j < Values ==> m[i, j] == NaN
        invariant forall j :: 0 <= j < v ==> m[t, j] == NaN
      {
        m[t, v] := NaN;
        v := v + 1;
      }
      t := t + 1;
    }
    m[4, 34] := Num(150.0);
    m[4, 18] := Num(30.0);
    m[4, 0] := Num(-90.0);
    m[8, 30] := Num(0.0);
    m[8, 50] := Num(-180.0);
    m[1, 0] := Num(90.0);
  }

  /**
   * An angle in degrees wrapped once: minus 360 above 180, then plus 360 below
   * -180. It differs from the input by a whole turn at most, and lands in
   * [-180, 180] for inputs within one and a half turns.
   */
  function Wrap180(t: real): (r: real)
    ensures r == t || r == t - 360.0 || r == t + 360.0
    ensures -540.0 <= t <= 540.0 ==> -180.0 <= r <= 180.0
    ensures -180.0 <= t <= 180.0 ==> r == t
  {
    var a := if t > 180.0 then t - 360.0 else t;
    if a < -180.0 then a + 360.0 else a
  }

  /** The same on doubles: a NaN angle fails both comparisons and stays NaN. */
  function Wrap180D(t: Dbl): (r: Dbl)
    ensures r.Num? <==> t.Num?
  {
    if t.Num? then Num(Wrap180(t.v)) else NaN
  }

  /** The drone's yaw in degrees, clockwise, from its global rotation about the y axis in radians. */
  function YawDegrees(rotY: real): real {
    -rotY * 180.0 / CvPi
  }

  /** The landmark is farther from its target distance than 0.2 m (false for a NaN distance). */
  predicate Far(dist: Dbl, target: real) {
    Less(Num(0.2), Fabs(Sub(dist, Num(target))))
  }

  /**
   * The transitions of `processImageFront`, checked one after the other in a
   * single call: inactive to approaching on a detection, approaching to
   * inactive when nothing is detected, approaching to rotating for a read
   * landmark away from the target distance with a relative angle in the map
   * (setting the target yaw), and rotating to inactive within 10 degrees of
   * the target yaw. The result is the new state and target yaw.
   */
  function AfterDetection(s: NavState, symbolType: int, dist: Dbl, distTarget: real, relative: Dbl,
                          yaw: real, yawTarget: Dbl): (NavState, Dbl)
  {
    var s1 := if s == Inactive && symbolType != 0 then Approaching else s;
    var s2 := if s1 == Approaching && symbolType == 0 then Inactive else s1;
    var turn := s2 == Approaching && symbolType != Unreadable && Far(dist, distTarget) && relative.Num?;
    var s3 := if turn then Rotating else s2;
    var t3 := if turn then Num(Wrap180(yaw + relative.v)) else yawTarget;
    var s4 := if s3 == Rotating && Less(Fabs(Sub(Num(yaw), t3)), Num(10.0)) then Inactive else s3;
    (s4, t3)
  }

  /** Without a detection the navigator never starts: it stays or becomes inactive unless it was rotating. */
  lemma NoDetectionStops(s: NavState, dist: Dbl, distTarget: real, relative: Dbl, yaw: real, yawTarget: Dbl)
    requires s != Rotating
    ensures AfterDetection(s, 0, dist, distTarget, relative, yaw, yawTarget) == (Inactive, yawTarget)
  {
  }

  /**
   * The navigator ends up rotating exactly when it was rotating and has not
   * reached its target yaw, or it turned in this call (a read landmark away
   * from the target distance with a mapped relative angle) and the wrapped
   * target yaw is not yet reached; a turn sets the target yaw.
   */
  lemma RotatingIff(s: NavState, symbolType: int, dist: Dbl, distTarget: real, relative: Dbl,
                    yaw: real, yawTarget: Dbl)
    ensures var r := AfterDetection(s, symbolType, dist, distTarget, relative, yaw, yawTarget);
            var turn := s != Rotating && symbolType != 0 && symbolType != Unreadable && Far(dist, distTarget) && relative.Num?;
            (turn ==> r.1 == Num(Wrap180(yaw + relative.v))) &&
            (!turn ==> r.1 == yawTarget) &&
            (r.0 == Rotating <==> (s == Rotating || turn) && !Less(Fabs(Sub(Num(yaw), r.1)), Num(10.0)))
  {
  }

  /** A state other than inactive after the call came from a detection or from rotating. */
  lemma ActiveNeedsDetection(s: NavState, symbolType: int, dist: Dbl, distTarget: real, relative: Dbl,
                             yaw: real, yawTarget: Dbl)
    requires AfterDetection(s, symbolType, dist, distTarget, relative, yaw, yawTarget).0 == Approaching
    ensures symbolType != 0 && s != Rotating
    ensures symbolType == Unreadable || !Far(dist, distTarget) || relative.NaN?
  {
  }

  /** `Navigator` */
  class Navigator {
    const focalLengthU: real
    const focalLengthV: real
    const principalPointU: real
    const principalPointV: real
    const yawRelativeMap: array2<Dbl>
    var symbolDistForwardTarget: real
    var state: NavState
    var symbolType: int
    var symbolValue: int
    var symbolDistForward: Dbl
    var symbolDistUp: Dbl
    var symbolAngleLeft: Dbl
    var droneYawTarget: Dbl

    ghost predicate Valid()
      reads this
    {
      yawRelativeMap.Length0 == Types && yawRelativeMap.Length1 == Values
    }

    constructor (focalLengthUArg: real, focalLengthVArg: real, principalPointUArg: real, principalPointVArg: real)
      ensures Valid() && fresh(yawRelativeMap)
      ensures forall t, v :: 0 <= t < Types && 0 <= v < Values ==> yawRelativeMap[t, v] == DefaultYawRelative(t, v)
      ensures focalLengthU == focalLengthUArg && focalLengthV == focalLengthVArg
      ensures principalPointU == principalPointUArg && principalPointV == principalPointVArg
      ensures symbolDistForwardTarget == DistForwardTargetDefault && state == Inactive
      ensures symbolType == 0 && symbolValue == 0
      ensures symbolDistForward == NaN && symbolDistUp == NaN && symbolAngleLeft == NaN && droneYawTarget == NaN
    {
      focalLengthU := focalLengthUArg;
      focalLengthV := focalLengthVArg;
      principalPointU := principalPointUArg;
      principalPointV := principalPointVArg;
      symbolDistForwardTarget := DistForwardTargetDefault;
      state := Inactive;
      symbolType := 0;
      symbolValue := 0;
      symbolDistForward := NaN;
      symbolDistUp := NaN;
      symbolAngleLeft := NaN;
      droneYawTarget := NaN;
      var m := NewYawMap();
      yawRelativeMap := m;
    }

    /** The map entry for a type and value, NaN outside the map. */
    function Relative(t: int, v: int): Dbl
      reads this, yawRelativeMap
      requires Valid()
    {
      if 0 <= t < Types && 0 <= v < Values then yawRelativeMap[t, v] else NaN
    }

    /**
     * `processImageFront(image, rotationGlobal)` with the detector's type and
     * value and the landmark's distances and angle as inputs; `rotY` is the
     * global rotation about the y axis in radians. A read landmark has a type
     * and value within the map.
     */
    method ProcessImageFront(typeArg: int, valueArg: int, distForward: Dbl, distUp: Dbl, angleLeft: Dbl, rotY: real)
      requires Valid()
      requires typeArg == Unreadable || (0 <= typeArg < Types && 0 <= valueArg < Values)
      modifies this
      ensures Valid() && symbolDistForwardTarget == old(symbolDistForwardTarget)
      ensures symbolType == typeArg && symbolValue == valueArg
      ensures symbolDistForward == distForward && symbolDistUp == distUp && symbolAngleLeft == angleLeft
      ensures (state, droneYawTarget) ==
              AfterDetection(old(state), typeArg, distForward, symbolDistForwardTarget, Relative(typeArg, valueArg),
                             YawDegrees(rotY), old(droneYawTarget))
    {
      symbolType := typeArg;
      symbolValue := valueArg;
      symbolDistForward := distForward;
      symbolDistUp := distUp;
      symbolAngleLeft := angleLeft;
      if state == Inactive && symbolType != 0 {
        state := Approaching;
      }
      if state == Approaching && symbolType == 0 {
        state := Inactive;
      }
      if state == Approaching {
        if symbolType != Unreadable && Far(symbolDistForward, symbolDistForwardTarget) {
          var droneYawRelative := yawRelativeMap[symbolType, symbolValue];
          if droneYawRelative.Num? {
            var droneYaw := YawDegrees(rotY);
            droneYawTarget := Num(Wrap180(droneYaw + droneYawRelative.v));
            state := Rotating;
          }
        }
      }
      if state == Rotating {
        var droneYaw := YawDegrees(rotY);
        if Less(Fabs(Sub(Num(droneYaw), droneYawTarget)), Num(10.0)) {
          state := Inactive;
        }
      }
    }

    /** The yaw error while rotating, target minus actual, wrapped once, in radians. */
    function YawError(rotY: real): Dbl
      reads this
    {
      Mul(DivBy(Wrap180D(Sub(droneYawTarget, Num(YawDegrees(rotY)))), 180.0), Num(CvPi))
    }

    /**
     * `getCommands(commands, rotationGlobal)`: inactive leaves the commands
     * alone and returns false; approaching controls the distance, height and
     * angle to the landmark with no sideways movement; rotating controls only
     * the yaw. Both active states clear the maneuver and return true.
     */
    method GetCommands(commands: Commands.DroneCommands, rotY: real, now: real) returns (modified: bool)
      requires commands.Valid()
      modifies commands, commands.controllerLinX, commands.controllerLinZ, commands.controllerAngZ
      ensures modified <==> state != Inactive
      ensures old(state) == Inactive ==>
                unchanged(commands) && unchanged(commands.controllerLinX) &&
                unchanged(commands.controllerLinZ) && unchanged(commands.controllerAngZ)
      ensures state == Approaching ==>
                var eForward := Sub(symbolDistForward, Num(symbolDistForwardTarget));
                commands.movement ==
                  Commands.Twist(Vec3(old(commands.controllerLinX.Command(eForward, now)), 0.0,
                                      old(commands.controllerLinZ.Command(symbolDistUp, now))),
                                 old(commands.movement).angular.(x2 := old(commands.controllerAngZ.Command(symbolAngleLeft, now)))) &&
                commands.controllerLinX.Stepped(eForward, now) && commands.controllerLinZ.Stepped(symbolDistUp, now) &&
                commands.controllerAngZ.Stepped(symbolAngleLeft, now)
      ensures state == Rotating ==>
                commands.movement ==
                  Commands.Twist(Zero3, old(commands.movement).angular.(x2 := old(commands.controllerAngZ.Command(YawError(rotY), now)))) &&
                commands.controllerAngZ.Stepped(YawError(rotY), now) &&
                unchanged(commands.controllerLinX) && unchanged(commands.controllerLinZ)
      ensures state != Inactive ==> commands.maneuver == Commands.ManeuverNone
      ensures commands.ledAnimation == old(commands.ledAnimation)
      ensures commands.ledFrequency == old(commands.ledFrequency) && commands.ledDuration == old(commands.ledDuration)
    {
      match state {
        case Approaching =>
          commands.ControlLinX(Sub(symbolDistForward, Num(symbolDistForwardTarget)), now);
          commands.ControlLinZ(symbolDistUp, now);
          commands.ControlAngZ(symbolAngleLeft, now);
          commands.movement := commands.movement.(linear := commands.movement.linear.(x1 := 0.0));
          commands.maneuver := Commands.ManeuverNone;
        case Rotating =>
          commands.ControlAngZ(YawError(rotY), now);
          commands.movement := commands.movement.(linear := Zero3);
          commands.maneuver := Commands.ManeuverNone;
        case Inactive =>
      }
      modified := state != Inactive;
    }
  }
}
