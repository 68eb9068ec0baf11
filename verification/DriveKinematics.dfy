/**
 From body velocity to wheel register bytes and back, over the reals:
 core/src/control/DiffDriveKinematics.cpp, the unit conversions of
 core/src/joint/Sts3215Driver.cpp and the reconstruction in core/src/main.cpp.
 */
module DriveKinematics {
  import opened Prelude
  import opened ServoFrame
  import ServoBus

  const TWO_PI: real := 2.0 * 3.14159265358979

  /** Radians per second per speed unit. */
  function Tick(): (t: real)
    ensures t > 0.0
  {
    TWO_PI / 4096.0
  }

  datatype BodyVel = BodyVel(vx: real, omegaZ: real)
  datatype WheelVel = WheelVel(frontLeft: real, frontRight: real, backLeft: real, backRight: real)
  datatype Kinematics = Kinematics(wheelRadius: real, trackWidth: real)

  const STOP := BodyVel(0.0, 0.0)

  predicate Physical(k: Kinematics) { k.wheelRadius > 0.0 && k.trackWidth > 0.0 }

  function BodyToWheels(k: Kinematics, b: BodyVel): WheelVel
    requires Physical(k)
  {
    var wL := (b.vx - b.omegaZ * k.trackWidth / 2.0) / k.wheelRadius;
    var wR := (b.vx + b.omegaZ * k.trackWidth / 2.0) / k.wheelRadius;
    WheelVel(wL, wR, wL, wR)
  }

  function WheelsToBody(k: Kinematics, m: WheelVel): BodyVel
    requires Physical(k)
  {
    RimsToBody(k.trackWidth, Rim(Mean(m.frontLeft, m.backLeft), k.wheelRadius),
               Rim(Mean(m.frontRight, m.backRight), k.wheelRadius))
  }

  function Mean(a: real, b: real): real { 0.5 * (a + b) }

  function Rim(w: real, radius: real): real { w * radius }

  function RimsToBody(track: real, vL: real, vR: real): BodyVel
    requires track > 0.0
  {
    BodyVel(0.5 * (vL + vR), (vR - vL) / track)
  }

  /** Conversion to an integer type drops the fraction. */
  function Trunc(x: real): int { if x >= 0.0 then x.Floor else -(-x).Floor }

  function ClampTicks(v: real): (raw: int16)
    ensures -32767 <= raw <= 32767
  {
    if v > 32767.0 then 32767 else if v < -32767.0 then -32767 else Trunc(v)
  }

  function RawFromRadps(radps: real): int16 { ClampTicks(radps / Tick()) }

  function RadpsFromRaw(raw: int16): real { raw as real * Tick() }

  /** Multiplication by the mount sign, +1 or -1. */
  function Mounted(invert: bool, x: real): real { if invert then -x else x }

  function Abs(x: real): real { if x < 0.0 then -x else x }

  /** A wheel speed as it comes back: mount sign, ticks, two register bytes, and the same in reverse. */
  function ThroughServo(invert: bool, w: real): real {
    var bytes := ServoBus.SpeedBytes(RawFromRadps(Mounted(invert, w)));
    Mounted(invert, RadpsFromRaw(DecodeSignMagnitude(Word(bytes[0], bytes[1]), SPEED_SIGN)))
  }

  lemma ScaleMonotone(a: real, b: real, s: real)
    requires s > 0.0
    ensures a < b <==> a * s < b * s
  {
    if a < b { assert (b - a) * s > 0.0; }
    if a > b { assert (a - b) * s > 0.0; }
  }

  lemma ScaleAbs(x: real, bound: real, s: real)
    requires s > 0.0
    ensures Abs(x * s) < bound * s <==> Abs(x) < bound
  {
    ScaleMonotone(x, bound, s);
    ScaleMonotone(-x, bound, s);
    ScaleMonotone(x, 0.0, s);
    assert (-x) * s == -(x * s);
  }

  lemma ClampErrorIff(v: real)
    ensures ClampTicks(-v) == -ClampTicks(v)
    ensures Abs(ClampTicks(v) as real - v) < 1.0 <==> Abs(v) < 32768.0
  {
  }

  /** Beyond the clamp the ticks saturate; inside it they are the speed cut toward zero, never rounded up. */
  lemma ClampTruncates(v: real)
    requires v >= 0.0
    ensures v >= 32767.0 ==> ClampTicks(v) == 32767
    ensures v < 32767.0 ==> ClampTicks(v) as real <= v < ClampTicks(v) as real + 1.0
  {
  }

  /** One speed unit is a 4096th of a turn per second. */
  lemma TickValue()
    ensures 0.00153398 < Tick() < 0.00153399
  {
  }

  /** The sides average to the forward speed, and a positive yaw rate makes the right side the faster one. */
  lemma WheelsMeaning(k: Kinematics, b: BodyVel)
    requires Physical(k)
    ensures var w := BodyToWheels(k, b);
      && w.backLeft == w.frontLeft && w.backRight == w.frontRight
      && (w.frontLeft + w.frontRight) * k.wheelRadius == 2.0 * b.vx
      && (w.frontRight - w.frontLeft) * k.wheelRadius == b.omegaZ * k.trackWidth
  {
    var l, t := b.vx - b.omegaZ * k.trackWidth / 2.0, b.vx + b.omegaZ * k.trackWidth / 2.0;
    var w := BodyToWheels(k, b);
    assert w.frontLeft * k.wheelRadius == l && w.frontRight * k.wheelRadius == t;
  }

  lemma NegDivide(x: real, t: real)
    requires t > 0.0
    ensures (-x) / t == -(x / t)
  {
  }

  /** The mount sign cancels: either way round, a wheel returns its speed cut to whole ticks. */
  lemma ThroughServoIsCut(invert: bool, w: real)
    ensures ThroughServo(invert, w) == RadpsFromRaw(RawFromRadps(w))
  {
    hide ServoBus.SpeedBytes, DecodeSignMagnitude, ClampTicks, Tick;
    ServoBus.SpeedOfBytes(RawFromRadps(Mounted(invert, w)));
    if invert {
      NegDivide(w, Tick());
      ClampErrorIff(w / Tick());
      assert RadpsFromRaw(-RawFromRadps(w)) == -RadpsFromRaw(RawFromRadps(w));
    }
  }

  /** A wheel speed survives to within one tick exactly when it is below 32768 ticks. */
  lemma WheelErrorIff(invert: bool, w: real)
    ensures Abs(ThroughServo(invert, w) - w) < Tick() <==> Abs(w) < 32768.0 * Tick()
  {
    hide ThroughServo, ClampTicks, Tick;
    ThroughServoIsCut(invert, w);
    ScaledErrorIff(w, w / Tick(), Tick());
  }

  lemma ScaledErrorIff(w: real, v: real, t: real)
    requires t > 0.0 && v * t == w
    ensures Abs(ClampTicks(v) as real * t - w) < t <==> Abs(w) < 32768.0 * t
  {
    var e := ClampTicks(v) as real - v;
    assert e * t == ClampTicks(v) as real * t - w;
    ScaleAbs(e, 1.0, t);
    ScaleAbs(v, 32768.0, t);
    ClampErrorIff(v);
  }

  datatype Mounts = Mounts(frontLeft: bool, frontRight: bool, backLeft: bool, backRight: bool)

  function Measured(mounts: Mounts, w: WheelVel): WheelVel {
    WheelVel(ThroughServo(mounts.frontLeft, w.frontLeft), ThroughServo(mounts.frontRight, w.frontRight),
             ThroughServo(mounts.backLeft, w.backLeft), ThroughServo(mounts.backRight, w.backRight))
  }

  /** What is measured at a wheel: its speed cut to whole ticks, whatever its mounting. */
  lemma MeasuredTicks(mounts: Mounts, w: WheelVel)
    ensures Measured(mounts, w) == WheelVel(
      ClampTicks(w.frontLeft / Tick()) as real * Tick(), ClampTicks(w.frontRight / Tick()) as real * Tick(),
      ClampTicks(w.backLeft / Tick()) as real * Tick(), ClampTicks(w.backRight / Tick()) as real * Tick())
  {
    hide Tick, ThroughServo, ClampTicks;
    ThroughServoIsCut(mounts.frontLeft, w.frontLeft);
    ThroughServoIsCut(mounts.frontRight, w.frontRight);
    ThroughServoIsCut(mounts.backLeft, w.backLeft);
    ThroughServoIsCut(mounts.backRight, w.backRight);
  }

  /** The body speed is the mean of all four rim speeds; the yaw rate is the sides' difference over the track. */
  lemma BodyMeaning(k: Kinematics, m: WheelVel)
    requires Physical(k)
    ensures var b, r := WheelsToBody(k, m), k.wheelRadius;
      && 4.0 * b.vx == m.frontLeft * r + m.backLeft * r + m.frontRight * r + m.backRight * r
      && 2.0 * b.omegaZ * k.trackWidth == m.frontRight * r + m.backRight * r - m.frontLeft * r - m.backLeft * r
  {
    var r := k.wheelRadius;
    var vL, vR := Rim(Mean(m.frontLeft, m.backLeft), r), Rim(Mean(m.frontRight, m.backRight), r);
    assert 2.0 * vL == m.frontLeft * r + m.backLeft * r;
    assert 2.0 * vR == m.frontRight * r + m.backRight * r;
    assert (vR - vL) / k.trackWidth * k.trackWidth == vR - vL;
  }

  /** Kinematics alone lose nothing. */
  lemma KinematicsRoundTrip(k: Kinematics, b: BodyVel)
    requires Physical(k)
    ensures WheelsToBody(k, BodyToWheels(k, b)) == b
  {
    var half := b.omegaZ * k.trackWidth / 2.0;
    var w := BodyToWheels(k, b);
    assert w.frontLeft * k.wheelRadius == b.vx - half;
    assert w.frontRight * k.wheelRadius == b.vx + half;
    assert Mean(w.frontLeft, w.backLeft) == w.frontLeft && Mean(w.frontRight, w.backRight) == w.frontRight;
    assert (2.0 * half) / k.trackWidth == b.omegaZ;
  }

  /**
   Whatever the mounting, a body command whose wheel speeds are representable comes
   back within one tick of rim speed, and within twice that over the track in yaw.
   */
  lemma QuantizationBound(k: Kinematics, mounts: Mounts, b: BodyVel)
    requires Physical(k)
    requires Abs(BodyToWheels(k, b).frontLeft) < 32768.0 * Tick()
        && Abs(BodyToWheels(k, b).frontRight) < 32768.0 * Tick()
    ensures var b' := WheelsToBody(k, Measured(mounts, BodyToWheels(k, b)));
      && Abs(b'.vx - b.vx) < Tick() * k.wheelRadius
      && Abs(b'.omegaZ - b.omegaZ) < 2.0 * Tick() * k.wheelRadius / k.trackWidth
  {
    hide Tick, ThroughServo;
    var w := BodyToWheels(k, b);
    var m := Measured(mounts, w);
    KinematicsRoundTrip(k, b);
    WheelErrorIff(mounts.frontLeft, w.frontLeft);
    WheelErrorIff(mounts.frontRight, w.frontRight);
    ThroughServoIsCut(mounts.frontLeft, w.frontLeft);
    ThroughServoIsCut(mounts.backLeft, w.backLeft);
    ThroughServoIsCut(mounts.frontRight, w.frontRight);
    ThroughServoIsCut(mounts.backRight, w.backRight);
    BodyError(k, w.frontLeft, w.frontRight, m.frontLeft, m.frontRight);
  }

  lemma BodyError(k: Kinematics, wL: real, wR: real, mL: real, mR: real)
    requires Physical(k) && Abs(mL - wL) < Tick() && Abs(mR - wR) < Tick()
    ensures var b := WheelsToBody(k, WheelVel(wL, wR, wL, wR));
      var b' := WheelsToBody(k, WheelVel(mL, mR, mL, mR));
      && Abs(b'.vx - b.vx) < Tick() * k.wheelRadius
      && Abs(b'.omegaZ - b.omegaZ) < 2.0 * Tick() * k.wheelRadius / k.trackWidth
  {
    hide Tick, Rim, RimsToBody;
    var r := k.wheelRadius;
    RimError(mL, wL, r);
    RimError(mR, wR, r);
    RimsError(k.trackWidth, Rim(wL, r), Rim(wR, r), Rim(mL, r), Rim(mR, r), Tick() * r);
    assert 2.0 * (Tick() * r) == 2.0 * Tick() * r;
  }

  /** Four wheel speeds, each within one tick of its side's. */
  lemma FourWheelError(k: Kinematics, v: WheelVel, m: WheelVel)
    requires Physical(k) && v.frontLeft == v.backLeft && v.frontRight == v.backRight
    requires Abs(m.frontLeft - v.frontLeft) < Tick() && Abs(m.frontRight - v.frontRight) < Tick()
    requires Abs(m.backLeft - v.backLeft) < Tick() && Abs(m.backRight - v.backRight) < Tick()
    ensures var b, b' := WheelsToBody(k, v), WheelsToBody(k, m);
      && Abs(b'.vx - b.vx) < Tick() * k.wheelRadius
      && Abs(b'.omegaZ - b.omegaZ) < 2.0 * Tick() * k.wheelRadius / k.trackWidth
  {
    hide Tick, Rim, RimsToBody;
    var mL, mR := Mean(m.frontLeft, m.backLeft), Mean(m.frontRight, m.backRight);
    BodyError(k, v.frontLeft, v.frontRight, mL, mR);
    assert Mean(mL, mL) == mL && Mean(mR, mR) == mR;
    assert WheelsToBody(k, WheelVel(mL, mR, mL, mR)) == WheelsToBody(k, m);
  }

  lemma RimsError(track: real, pL: real, pR: real, qL: real, qR: real, bound: real)
    requires track > 0.0 && Abs(qL - pL) < bound && Abs(qR - pR) < bound
    ensures var b, b' := RimsToBody(track, pL, pR), RimsToBody(track, qL, qR);
      Abs(b'.vx - b.vx) < bound && Abs(b'.omegaZ - b.omegaZ) < 2.0 * bound / track
  {
    YawError(qR - qL, pR - pL, 2.0 * bound, track);
  }

  lemma RimError(m: real, w: real, r: real)
    requires r > 0.0 && Abs(m - w) < Tick()
    ensures Abs(Rim(m, r) - Rim(w, r)) < Tick() * r
  {
    hide Tick;
    assert (m - w) * r == m * r - w * r;
    ScaleAbs(m - w, Tick(), r);
  }

  lemma YawError(x: real, y: real, bound: real, t: real)
    requires t > 0.0 && Abs(x - y) < bound
    ensures Abs(x / t - y / t) < bound / t
  {
    var d := x / t - y / t;
    assert d * t == x - y;
    assert bound / t * t == bound;
    ScaleAbs(d, bound / t, t);
  }
}
