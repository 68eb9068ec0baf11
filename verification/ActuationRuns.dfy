/** Safety of the actuation core over every run of handlers and loop passes. */
module ActuationRuns {
  import opened Prelude
  import opened ServoFrame
  import opened ServoRegisters
  import opened ServoBus
  import opened DriveKinematics
  import opened Actuation
  import opened ActuationInvariant

  /** Event `i` leads from state `i` to state `i + 1`. */
  datatype Run = Run(states: seq<Core>, events: seq<Event>)

  ghost predicate Initial(cfg: Config, s: Core) {
    && s.mode == Safe && !s.heartbeatOk && !s.wd.alive && !s.ds.alive
    && !s.armed && s.target == STOP && !s.booted && Wired(cfg, s.servos)
  }

  ghost predicate IsRun(cfg: Config, r: Run) {
    && ValidConfig(cfg)
    && |r.states| == |r.events| + 1
    && Initial(cfg, r.states[0])
    && forall i | 0 <= i < |r.events| ::
         Enabled(cfg, r.states[i], r.events[i]) && r.states[i + 1] == Step(cfg, r.states[i], r.events[i])
  }

  lemma {:induction false} InvAlong(cfg: Config, r: Run, i: nat)
    requires IsRun(cfg, r) && i < |r.states|
    ensures Inv(cfg, r.states[i])
    decreases i
  {
    hide Step, Enabled;
    if i > 0 {
      InvAlong(cfg, r, i - 1);
      InvStep(cfg, r.states[i - 1], r.events[i - 1]);
    }
  }

  // ----- Where the timers and the target come from

  predicate FromModule(e: Event) { e.ServoControl? || e.ServoSync? || e.ServoRead? || e.Plant? }

  /** Module traffic and plant motion reach servo registers and overcurrent limits, nothing else. */
  lemma ModuleFrame(cfg: Config, s: Core, e: Event)
    requires ValidConfig(cfg) && FromModule(e)
    ensures Step(cfg, s, e).(servos := s.servos, ceil := s.ceil) == s
  {
    hide ControlStep, ReadStep, SyncGoals, SyncList, Touches, Frozen;
    match e
    case ServoControl(id, op) => if Gated(cfg, id) { ControlTouches(cfg, s, id, op); }
    case ServoRead(id) => ReadFrozen(cfg, s, id);
    case _ =>
  }

  lemma StepWatchdog(cfg: Config, s: Core, e: Event)
    requires ValidConfig(cfg) && Step(cfg, s, e).wd.alive
    ensures e.Heartbeat? ==> Step(cfg, s, e).wd.lastKick == e.t
    ensures !e.Heartbeat? ==> Step(cfg, s, e).wd == s.wd
  {
    if FromModule(e) {
      ModuleFrame(cfg, s, e);
    } else {
      hide Transition, WriteWheels, WithTorques, ControlStep, ReadStep, EnsureModes, Discovered, Aux, BodyToWheels;
      forall s, to { TransitionFrame(cfg, s, to); }
    }
  }

  /** The heartbeat a live watchdog was last kicked by: the latest one there has been. */
  lemma {:induction false} LastHeartbeat(cfg: Config, r: Run, i: nat) returns (h: nat)
    requires IsRun(cfg, r) && i < |r.states| && r.states[i].wd.alive
    ensures h < i && r.events[h].Heartbeat? && r.events[h].t == r.states[i].wd.lastKick
    ensures forall k | h < k < i :: !r.events[k].Heartbeat?
    decreases i
  {
    hide Step, Enabled;
    StepWatchdog(cfg, r.states[i - 1], r.events[i - 1]);
    if r.events[i - 1].Heartbeat? { h := i - 1; } else { h := LastHeartbeat(cfg, r, i - 1); }
  }

  predicate Accepted(cfg: Config, s: Core, e: Event) {
    e.DriveCmd? && e.cmd.Some? && cfg.hasDrive && Actuating(s.mode)
  }

  lemma TransitionStops(cfg: Config, s: Core, to: Mode)
    requires Inv(cfg, s) && to != s.mode
    ensures Transition(cfg, s, to).target == STOP
  {
    hide WriteWheels, WithTorques, Halt;
  }

  lemma StepTarget(cfg: Config, s: Core, e: Event)
    requires ValidConfig(cfg) && Inv(cfg, s) && Step(cfg, s, e).target != STOP
    ensures var s' := Step(cfg, s, e);
      s'.mode == s.mode
      && (if Accepted(cfg, s, e) then s'.target == e.cmd.value && s'.ds == Timer(e.t, true)
          else s'.target == s.target && s'.ds == s.ds)
  {
    if FromModule(e) {
      ModuleFrame(cfg, s, e);
    } else {
      hide Transition, ControlStep, ReadStep, BootStep, PassStep;
      forall to | to != s.mode { TransitionStops(cfg, s, to); }
      TransitionToSelf(cfg, s);
      if e.Boot? { BootStops(cfg, s, e.t); }
      if e.Pass? { PassTarget(cfg, s, e); }
    }
  }

  lemma BootStops(cfg: Config, s: Core, t: int)
    requires Inv(cfg, s)
    ensures BootStep(cfg, s, t).target == STOP
  {
    hide WriteWheels, WithTorques, EnsureModes, Discovered, Aux;
  }

  lemma PassTarget(cfg: Config, s: Core, e: Event)
    requires ValidConfig(cfg) && Inv(cfg, s) && e.Pass? && PassStep(cfg, s, e).target != STOP
    ensures var s' := PassStep(cfg, s, e); s'.mode == s.mode && s'.target == s.target && s'.ds == s.ds
  {
    hide WriteWheels, BodyToWheels;
    PassKeepsTarget(cfg, s, e);
  }

  /** The command behind a nonzero target: the latest accepted one, with no mode change since. */
  lemma {:induction false} Authority(cfg: Config, r: Run, i: nat) returns (c: nat)
    requires IsRun(cfg, r) && i < |r.states| && r.states[i].target != STOP
    ensures c < i && Accepted(cfg, r.states[c], r.events[c])
    ensures r.events[c].cmd == Some(r.states[i].target) && r.states[i].ds == Timer(r.events[c].t, true)
    ensures forall k | c <= k <= i :: r.states[k].mode == r.states[c].mode
    ensures forall k | c < k < i :: !Accepted(cfg, r.states[k], r.events[k])
    decreases i
  {
    hide Step, Enabled, Inv;
    InvAlong(cfg, r, i - 1);
    StepTarget(cfg, r.states[i - 1], r.events[i - 1]);
    if Accepted(cfg, r.states[i - 1], r.events[i - 1]) { c := i - 1; } else { c := Authority(cfg, r, i - 1); }
  }

  // ----- Nonzero wheel speeds are always justified

  lemma PassKeepsTarget(cfg: Config, s: Core, e: Event)
    requires Inv(cfg, s) && e.Pass? && Checked(cfg, s, e).target != STOP
    ensures Checked(cfg, s, e) == s
    ensures Actuating(s.mode) && s.wd.alive && e.tWd - s.wd.lastKick <= HEARTBEAT_TIMEOUT
    ensures s.ds.alive && e.tDs - s.ds.lastKick <= DRIVE_TIMEOUT
  {
  }

  /**
   Every pass that commands the wheels to move does so in an actuating mode, within
   500 ms of a heartbeat, and with exactly the latest accepted drive command, which
   is at most 300 ms old and has seen no mode change.
   */
  lemma MotionJustified(cfg: Config, r: Run, i: nat, b: BodyVel) returns (h: nat, c: nat)
    requires IsRun(cfg, r) && i < |r.events| && r.events[i].Pass?
    requires Commanded(cfg, r.states[i], r.events[i]) == Some(b) && b != STOP
    ensures Actuating(r.states[i + 1].mode) && r.states[i + 1].armed
    ensures h < i && r.events[h].Heartbeat? && r.events[i].tWd - r.events[h].t <= HEARTBEAT_TIMEOUT
    ensures c < i && Accepted(cfg, r.states[c], r.events[c]) && r.events[c].cmd == Some(b)
    ensures r.events[i].tDs - r.events[c].t <= DRIVE_TIMEOUT
    ensures forall k | c <= k <= i + 1 :: r.states[k].mode == r.states[c].mode
    ensures forall k | c < k < i :: !Accepted(cfg, r.states[k], r.events[k])
  {
    InvAlong(cfg, r, i);
    PassKeepsTarget(cfg, r.states[i], r.events[i]);
    hide Inv, Enabled, Checked;
    h := LastHeartbeat(cfg, r, i);
    c := Authority(cfg, r, i);
  }

  lemma StandingStill(k: Kinematics)
    requires Physical(k)
    ensures BodyToWheels(k, STOP) == STILL
  {
  }

  /**
   The same on the servo registers: after a pass whose tick was due, a drive wheel
   with a nonzero GOAL_SPEED implies that the pass commanded motion, if the module
   servo gate refuses that wheel.
   */
  lemma NonzeroSpeedIsCommanded(cfg: Config, r: Run, i: nat, id: byte) returns (b: BodyVel)
    requires IsRun(cfg, r) && i < |r.events| && r.events[i].Pass?
    requires id in DriveIds(cfg) && !Gated(cfg, id as int)
    requires r.events[i].now >= Checked(cfg, r.states[i], r.events[i]).next50
    requires !Stopped(r.states[i + 1].servos, id)
    ensures Commanded(cfg, r.states[i], r.events[i]) == Some(b) && b != STOP
  {
    var s, e := r.states[i], r.events[i];
    InvAlong(cfg, r, i);
    CheckedInv(cfg, s, e);
    hide Checked, WriteWheels, BodyToWheels, Stopped;
    var c := Checked(cfg, s, e);
    assert id in AllWheels(cfg) && id in WheelIds(cfg.wheels);
    assert !c.armed ==> Stopped(c.servos, id);
    StandingStill(cfg.kin);
    WriteWheelsTouch(cfg, c.servos, STILL);
    b := Commanded(cfg, s, e).value;
  }

  /** Outside the actuating modes a drive wheel that the gate refuses has GOAL_SPEED zero from boot on. */
  lemma DisarmedMeansStopped(cfg: Config, r: Run, i: nat, id: byte)
    requires IsRun(cfg, r) && i < |r.states| && r.states[i].booted && !Actuating(r.states[i].mode)
    requires id in DriveIds(cfg) && !Gated(cfg, id as int)
    ensures Stopped(r.states[i].servos, id)
  {
    InvAlong(cfg, r, i);
  }

  ghost predicate StopsWhenDisarmed(cfg: Config, id: byte) {
    forall r: Run, i | IsRun(cfg, r) && 0 <= i < |r.states| && r.states[i].booted && !Actuating(r.states[i].mode)
      :: Stopped(r.states[i].servos, id)
  }

  predicate Moves(cfg: Config, s: Core, e: Event)
    requires e.Pass?
  {
    Commanded(cfg, s, e).Some? && Commanded(cfg, s, e).value != STOP
  }

  /** The wheel turns after pass `i`, whose tick was due. */
  ghost predicate Rolls(cfg: Config, r: Run, i: int, id: byte) {
    && 0 <= i < |r.events| && i + 1 < |r.states| && r.events[i].Pass?
    && r.events[i].now >= Checked(cfg, r.states[i], r.events[i]).next50
    && !Stopped(r.states[i + 1].servos, id)
  }

  ghost predicate MovesOnlyByCommand(cfg: Config, id: byte) {
    forall r: Run, i | IsRun(cfg, r) && Rolls(cfg, r, i, id) :: Moves(cfg, r.states[i], r.events[i])
  }

  lemma SpeedLands(m: Servos, id: byte)
    requires Addressable(m, id)
    ensures !Stopped(Poke(m, id, GOAL_SPEED, SpeedBytes(1)), id)
  {
    PokeFrame(m, id, GOAL_SPEED, SpeedBytes(1), id, 0x2E);
  }

  lemma BootedSafe(cfg: Config, s: Core)
    requires ValidConfig(cfg) && Initial(cfg, s)
    ensures var s' := Step(cfg, s, Boot(0));
      && s' == s.(servos := s'.servos, booted := true, next50 := 0)
      && forall id | id in DriveIds(cfg) :: Addressable(s'.servos, id)
  {
    BootInv(cfg, s, 0);
  }

  lemma SpeedRequest(cfg: Config, s: Core, id: byte)
    requires ValidConfig(cfg) && s.mode == Safe && Gated(cfg, id as int) && Addressable(s.servos, id)
    ensures var s' := Step(cfg, s, ServoControl(id as int, OpGoalVelocity(1)));
      s' == s.(servos := s'.servos) && !Stopped(s'.servos, id)
  {
    hide Stopped, SpeedBytes, Poke;
    SpeedLands(s.servos, id);
  }

  /** Boot, a module's velocity request for a drive wheel that passes the gate, and a pass, all in Safe. */
  lemma GatedWheelRun(cfg: Config, m: Servos, id: byte) returns (r: Run)
    requires ValidConfig(cfg) && Wired(cfg, m) && id in DriveIds(cfg) && Gated(cfg, id as int)
    ensures IsRun(cfg, r) && |r.states| == 4 && |r.events| == 3
    ensures r.states[2].booted && r.states[2].mode == Safe && !Stopped(r.states[2].servos, id)
    ensures Rolls(cfg, r, 2, id) && !Moves(cfg, r.states[2], r.events[2])
  {
    hide Step, Wired, Stopped, Addressable, Checked, Commanded;
    var off := Timer(0, false);
    var s0 := Core(Safe, false, off, off, false, STOP, 0, false, map[], m);
    var e0, e1, e2 := Boot(0), ServoControl(id as int, OpGoalVelocity(1)), Pass(0, 0, 0);
    BootedSafe(cfg, s0);
    var s1 := Step(cfg, s0, e0);
    SpeedRequest(cfg, s1, id);
    var s2 := Step(cfg, s1, e1);
    IdlePass(cfg, s2, e2);
    r := Run([s0, s1, s2, Step(cfg, s2, e2)], [e0, e1, e2]);
  }

  lemma IdlePass(cfg: Config, s: Core, e: Event)
    requires ValidConfig(cfg) && e.Pass? && !s.armed && !s.wd.alive && !s.ds.alive && e.now >= s.next50
    ensures Checked(cfg, s, e) == s && Commanded(cfg, s, e) == None
    ensures Step(cfg, s, e) == s.(next50 := s.next50 + TICK_PERIOD)
  {
  }

  /**
   Both register results hold in every run exactly for the drive wheels that the
   gate refuses: a wheel owned by a module, with a number up to 12, is the module's to turn.
   */
  lemma DriveWheelSafeIff(cfg: Config, m: Servos, id: byte)
    requires ValidConfig(cfg) && Wired(cfg, m) && id in DriveIds(cfg)
    ensures StopsWhenDisarmed(cfg, id) <==> !Gated(cfg, id as int)
    ensures MovesOnlyByCommand(cfg, id) <==> !Gated(cfg, id as int)
  {
    if Gated(cfg, id as int) {
      hide IsRun, Stopped, Checked, Rolls, Moves;
      var r := GatedWheelRun(cfg, m, id);
      assert IsRun(cfg, r) && Rolls(cfg, r, 2, id);
    } else {
      ShelteredWheel(cfg, id);
    }
  }

  lemma ShelteredWheel(cfg: Config, id: byte)
    requires id in DriveIds(cfg) && !Gated(cfg, id as int)
    ensures StopsWhenDisarmed(cfg, id) && MovesOnlyByCommand(cfg, id)
  {
    hide IsRun, Stopped, Checked;
    forall r: Run, i | IsRun(cfg, r) && 0 <= i < |r.states| && r.states[i].booted && !Actuating(r.states[i].mode)
      ensures Stopped(r.states[i].servos, id)
    {
      DisarmedMeansStopped(cfg, r, i, id);
    }
    forall r: Run, i | IsRun(cfg, r) && Rolls(cfg, r, i, id) ensures Moves(cfg, r.states[i], r.events[i]) {
      var b := NonzeroSpeedIsCommanded(cfg, r, i, id);
    }
  }

  // ----- What a commanding pass leaves in the wheel registers

  /** No servo drives a left and a right wheel at once. */
  predicate SidesApart(w: Wheels) {
    && w.frontLeft != w.frontRight && w.frontLeft != w.backRight
    && w.backLeft != w.frontRight && w.backLeft != w.backRight
  }

  /** The speed last written to a servo by one round of wheel writes. */
  function LastSpeed(w: Wheels, v: WheelVel, id: byte): real {
    if id == w.backRight then v.backRight
    else if id == w.backLeft then v.backLeft
    else if id == w.frontRight then v.frontRight
    else v.frontLeft
  }

  /** The wheel speed that the GOAL_SPEED register of a wheel stands for. */
  function RegisterSpeed(cfg: Config, m: Servos, id: byte): real
    requires id in m && id in cfg.info
  {
    Mounted(cfg.info[id].invert,
        RadpsFromRaw(DecodeSignMagnitude(Word(m[id].regs[0x2E], m[id].regs[0x2F]), SPEED_SIGN)))
  }

  ghost predicate Ready(cfg: Config, m: Servos, id: byte) { id in cfg.info && Addressable(m, id) }

  /** The ticks in a wheel's GOAL_SPEED register. */
  function RegisterTicks(m: Servos, id: byte): int
    requires id in m
  {
    DecodeSignMagnitude(Word(m[id].regs[0x2E], m[id].regs[0x2F]), SPEED_SIGN)
  }

  /** A servo mounted the other way round gets the opposite ticks. */
  lemma MountedTicks(invert: bool, v: real)
    ensures RawFromRadps(Mounted(invert, v)) == if invert then -ClampTicks(v / Tick()) else ClampTicks(v / Tick())
  {
    hide ClampTicks, Tick;
    if invert {
      NegDivide(v, Tick());
      ClampErrorIff(v / Tick());
    }
  }

  lemma WheelRegister(cfg: Config, m: Servos, id: byte, v: real, other: byte)
    requires Ready(cfg, m, id) && Ready(cfg, m, other)
    ensures Ready(cfg, WriteWheel(cfg, m, id, v), other)
    ensures RegisterSpeed(cfg, WriteWheel(cfg, m, id, v), other)
         == if other == id then ThroughServo(cfg.info[id].invert, v) else RegisterSpeed(cfg, m, other)
    ensures RegisterTicks(WriteWheel(cfg, m, id, v), other)
         == if other != id then RegisterTicks(m, other)
            else if cfg.info[id].invert then -ClampTicks(v / Tick()) else ClampTicks(v / Tick())
  {
    hide DecodeSignMagnitude, RadpsFromRaw, Mounted, RawFromRadps, EncodeSignMagnitude, ClampTicks, Tick;
    var raw := RawFromRadps(Mounted(cfg.info[id].invert, v));
    var data := SpeedBytes(raw);
    MountedTicks(cfg.info[id].invert, v);
    SpeedOfBytes(raw);
    PokeFrame(m, id, GOAL_SPEED, data, other, 0x2E);
    PokeFrame(m, id, GOAL_SPEED, data, other, 0x2F);
  }

  /** After a round of wheel writes each register holds its last writer's speed, as the servo can hold it. */
  ghost predicate Hold(cfg: Config, m: Servos, v: WheelVel) {
    forall id | id in WheelIds(cfg.wheels) ::
      && Ready(cfg, m, id)
      && RegisterSpeed(cfg, m, id) == ThroughServo(cfg.info[id].invert, LastSpeed(cfg.wheels, v, id))
      && RegisterTicks(m, id) == LastTicks(cfg, v, id)
  }

  /** What the register of a wheel is to hold, in ticks of the servo's own direction. */
  function LastTicks(cfg: Config, v: WheelVel, id: byte): int
    requires id in cfg.info
  {
    var ticks := ClampTicks(LastSpeed(cfg.wheels, v, id) / Tick());
    if cfg.info[id].invert then -ticks else ticks
  }

  lemma WheelRegisters(cfg: Config, m: Servos, v: WheelVel)
    requires forall id | id in WheelIds(cfg.wheels) :: Ready(cfg, m, id)
    ensures Hold(cfg, WriteWheels(cfg, m, v), v)
  {
    hide WriteWheel, RegisterSpeed, RegisterTicks, ThroughServo, Addressable, ClampTicks, Tick;
    var w := cfg.wheels;
    var m1 := WriteWheel(cfg, m, w.frontLeft, v.frontLeft);
    var m2 := WriteWheel(cfg, m1, w.frontRight, v.frontRight);
    var m3 := WriteWheel(cfg, m2, w.backLeft, v.backLeft);
    var ids := WheelIds(w);
    assert w.frontLeft in ids && w.frontRight in ids && w.backLeft in ids && w.backRight in ids;
    forall id | id in ids { WheelRegister(cfg, m, w.frontLeft, v.frontLeft, id); }
    forall id | id in ids { WheelRegister(cfg, m1, w.frontRight, v.frontRight, id); }
    forall id | id in ids { WheelRegister(cfg, m2, w.backLeft, v.backLeft, id); }
    forall id | id in ids { WheelRegister(cfg, m3, w.backRight, v.backRight, id); }
  }

  /** The body velocity the four wheel registers stand for. */
  function RegisterBody(cfg: Config, m: Servos): BodyVel
    requires ValidConfig(cfg) && forall id | id in WheelIds(cfg.wheels) :: id in m && id in cfg.info
  {
    var w := cfg.wheels;
    var ids := WheelIds(w);
    assert w.frontLeft in ids && w.frontRight in ids && w.backLeft in ids && w.backRight in ids;
    WheelsToBody(cfg.kin, WheelVel(RegisterSpeed(cfg, m, w.frontLeft), RegisterSpeed(cfg, m, w.frontRight),
                                   RegisterSpeed(cfg, m, w.backLeft), RegisterSpeed(cfg, m, w.backRight)))
  }

  ghost predicate StandsFor(cfg: Config, m: Servos, b: BodyVel)
    requires ValidConfig(cfg)
  {
    && (forall id | id in WheelIds(cfg.wheels) :: id in m && id in cfg.info)
    && Abs(RegisterBody(cfg, m).vx - b.vx) < Tick() * cfg.kin.wheelRadius
    && Abs(RegisterBody(cfg, m).omegaZ - b.omegaZ) < 2.0 * Tick() * cfg.kin.wheelRadius / cfg.kin.trackWidth
  }

  predicate Representable(cfg: Config, b: BodyVel)
    requires ValidConfig(cfg)
  {
    && Abs(BodyToWheels(cfg.kin, b).frontLeft) < 32768.0 * Tick()
    && Abs(BodyToWheels(cfg.kin, b).frontRight) < 32768.0 * Tick()
  }

  /** Every wheel's register is within one tick of the speed commanded for that wheel. */
  ghost predicate Tracks(cfg: Config, m: Servos, v: WheelVel) {
    && (forall id | id in WheelIds(cfg.wheels) :: id in m && id in cfg.info)
    && Near(cfg, m, cfg.wheels.frontLeft, v.frontLeft) && Near(cfg, m, cfg.wheels.frontRight, v.frontRight)
    && Near(cfg, m, cfg.wheels.backLeft, v.backLeft) && Near(cfg, m, cfg.wheels.backRight, v.backRight)
  }

  ghost predicate Near(cfg: Config, m: Servos, id: byte, speed: real) {
    id in m && id in cfg.info && Abs(RegisterSpeed(cfg, m, id) - speed) < Tick()
  }

  lemma StraightWheels(k: Kinematics, b: BodyVel)
    requires Physical(k)
    ensures var v := BodyToWheels(k, b); v.frontLeft == v.backLeft && v.frontRight == v.backRight
    ensures b.omegaZ == 0.0 ==> BodyToWheels(k, b).frontLeft == BodyToWheels(k, b).frontRight
  {
  }

  /** Where no register is asked for two speeds, the registers track exactly the representable commands. */
  lemma TracksIff(cfg: Config, m: Servos, b: BodyVel)
    requires ValidConfig(cfg) && Hold(cfg, m, BodyToWheels(cfg.kin, b)) && (SidesApart(cfg.wheels) || b.omegaZ == 0.0)
    ensures Tracks(cfg, m, BodyToWheels(cfg.kin, b)) <==> Representable(cfg, b)
  {
    hide BodyToWheels, RegisterSpeed, RegisterTicks, LastTicks, ThroughServo, Tick, Abs;
    StraightWheels(cfg.kin, b);
    var v, w := BodyToWheels(cfg.kin, b), cfg.wheels;
    var ids := WheelIds(w);
    assert w.frontLeft in ids && w.frontRight in ids && w.backLeft in ids && w.backRight in ids;
    WheelErrorIff(cfg.info[w.frontLeft].invert, v.frontLeft);
    WheelErrorIff(cfg.info[w.frontRight].invert, v.frontRight);
    WheelErrorIff(cfg.info[w.backLeft].invert, v.backLeft);
    WheelErrorIff(cfg.info[w.backRight].invert, v.backRight);
  }

  function Cut(speed: real): real { RadpsFromRaw(RawFromRadps(speed)) }

  /** The last speed written to each wheel's servo, cut to ticks, is within one tick of that wheel's own. */
  predicate Fits(w: Wheels, v: WheelVel) {
    && Abs(Cut(LastSpeed(w, v, w.frontLeft)) - v.frontLeft) < Tick()
    && Abs(Cut(LastSpeed(w, v, w.frontRight)) - v.frontRight) < Tick()
    && Abs(Cut(LastSpeed(w, v, w.backLeft)) - v.backLeft) < Tick()
    && Abs(Cut(LastSpeed(w, v, w.backRight)) - v.backRight) < Tick()
  }

  lemma TracksFits(cfg: Config, m: Servos, v: WheelVel)
    requires Hold(cfg, m, v)
    ensures Tracks(cfg, m, v) <==> Fits(cfg.wheels, v)
  {
    hide RegisterSpeed, RegisterTicks, LastTicks, ThroughServo, Tick, Abs, RadpsFromRaw, RawFromRadps, LastSpeed;
    var w := cfg.wheels;
    var ids := WheelIds(w);
    assert w.frontLeft in ids && w.frontRight in ids && w.backLeft in ids && w.backRight in ids;
    forall id | id in WheelIds(w) ensures RegisterSpeed(cfg, m, id) == Cut(LastSpeed(w, v, id)) {
      ThroughServoIsCut(cfg.info[id].invert, LastSpeed(w, v, id));
    }
  }

  /** A servo shared by both sides holds one speed, so it cannot track a turn of two ticks or more. */
  lemma SharedServo(cfg: Config, m: Servos, v: WheelVel)
    requires !SidesApart(cfg.wheels) && Tracks(cfg, m, v) && v.frontLeft == v.backLeft && v.frontRight == v.backRight
    ensures Abs(v.frontLeft - v.frontRight) < 2.0 * Tick()
  {
    hide RegisterSpeed, Tick;
  }

  /** Registers that track a command stand for its body velocity. */
  lemma TracksStandFor(cfg: Config, m: Servos, b: BodyVel)
    requires ValidConfig(cfg) && Tracks(cfg, m, BodyToWheels(cfg.kin, b))
    ensures StandsFor(cfg, m, b)
  {
    hide BodyToWheels, RegisterSpeed, WheelsToBody, Tick, Abs;
    StraightWheels(cfg.kin, b);
    KinematicsRoundTrip(cfg.kin, b);
    var v, w := BodyToWheels(cfg.kin, b), cfg.wheels;
    FourWheelError(cfg.kin, v, WheelVel(RegisterSpeed(cfg, m, w.frontLeft), RegisterSpeed(cfg, m, w.frontRight),
                                        RegisterSpeed(cfg, m, w.backLeft), RegisterSpeed(cfg, m, w.backRight)));
  }

  /**
   What a command leaves in the registers, for any assignment of wheels: each holds
   what its last writer asked for, clamped and cut to ticks, and the wheels track the
   command, each within one tick, exactly if that fits. Registers that track it stand
   for the commanded body velocity to within one tick of rim speed. Unless a servo is
   asked for two speeds, they track exactly the representable commands.
   */
  ghost predicate Reached(cfg: Config, m: Servos, b: BodyVel)
    requires ValidConfig(cfg)
  {
    var v := BodyToWheels(cfg.kin, b);
    && Hold(cfg, m, v) && (Tracks(cfg, m, v) <==> Fits(cfg.wheels, v))
    && (SidesApart(cfg.wheels) || b.omegaZ == 0.0 ==> (Tracks(cfg, m, v) <==> Representable(cfg, b)))
    && (Tracks(cfg, m, v) ==> StandsFor(cfg, m, b))
    && (!SidesApart(cfg.wheels) && Tracks(cfg, m, v) ==> Abs(v.frontLeft - v.frontRight) < 2.0 * Tick())
  }

  lemma HoldReaches(cfg: Config, m: Servos, b: BodyVel)
    requires ValidConfig(cfg) && Hold(cfg, m, BodyToWheels(cfg.kin, b))
    ensures Reached(cfg, m, b)
  {
    hide Hold, BodyToWheels, StandsFor, Representable, Tracks, Tick, Abs, Fits;
    StraightWheels(cfg.kin, b);
    TracksFits(cfg, m, BodyToWheels(cfg.kin, b));
    if SidesApart(cfg.wheels) || b.omegaZ == 0.0 {
      TracksIff(cfg, m, b);
    }
    if Tracks(cfg, m, BodyToWheels(cfg.kin, b)) {
      TracksStandFor(cfg, m, b);
      if !SidesApart(cfg.wheels) { SharedServo(cfg, m, BodyToWheels(cfg.kin, b)); }
    }
  }

  lemma PassHolds(cfg: Config, r: Run, i: nat, b: BodyVel)
    requires IsRun(cfg, r) && i < |r.events| && r.events[i].Pass?
    requires Commanded(cfg, r.states[i], r.events[i]) == Some(b)
    ensures Hold(cfg, r.states[i + 1].servos, BodyToWheels(cfg.kin, b))
  {
    var s, e := r.states[i], r.events[i];
    InvAlong(cfg, r, i);
    CheckedInv(cfg, s, e);
    var c := Checked(cfg, s, e);
    hide Checked, WriteWheels, BodyToWheels, Hold;
    forall id | id in WheelIds(cfg.wheels) ensures Ready(cfg, c.servos, id) { assert id in AllWheels(cfg); }
    WheelRegisters(cfg, c.servos, BodyToWheels(cfg.kin, b));
  }

  /** From cmd.drive to the servo registers, for every command that a pass passes on. */
  lemma CommandReachesRegisters(cfg: Config, r: Run, i: nat, b: BodyVel)
    requires IsRun(cfg, r) && i < |r.events| && r.events[i].Pass?
    requires Commanded(cfg, r.states[i], r.events[i]) == Some(b)
    ensures Reached(cfg, r.states[i + 1].servos, b)
  {
    hide Commanded, Hold, Reached;
    PassHolds(cfg, r, i, b);
    HoldReaches(cfg, r.states[i + 1].servos, b);
  }

  // ----- Emergency stop

  lemma EstopStep(cfg: Config, s: Core, e: Event)
    requires ValidConfig(cfg) && Inv(cfg, s) && Enabled(cfg, s, e) && s.mode == Estop
    ensures Step(cfg, s, e).mode == Estop ==> Frozen(s.servos, Step(cfg, s, e).servos)
    ensures Step(cfg, s, e).mode != Estop ==> e.RecoverRpc? && Step(cfg, s, e).mode == Safe && !Step(cfg, s, e).armed
  {
    assert Frozen(s.servos, s.servos);
    if FromModule(e) { ModuleFrame(cfg, s, e); }
    hide Transition, ControlStep, ReadStep, BootStep, PassStep, Frozen, SyncGoals, SyncList;
    TransitionToSelf(cfg, s);
    match e
    case ServoRead(id) => ReadFrozen(cfg, s, id);
    case Boot(t) => BootInv(cfg, s, t); BootMode(cfg, s, t);
    case Pass(_, _, _) => PassInv(cfg, s, e); PassMode(cfg, s, e);
    case Plant(m) => PlantFrozen(s.servos, m);
    case RecoverRpc => TransitionEstablishes(cfg, s, Safe); TransitionFrame(cfg, s, Safe);
    case _ =>
  }

  lemma BootMode(cfg: Config, s: Core, t: int)
    ensures BootStep(cfg, s, t).mode == s.mode
  {
    hide WriteWheels, WithTorques, EnsureModes, Discovered, Aux;
  }

  lemma PassMode(cfg: Config, s: Core, e: Event)
    requires ValidConfig(cfg) && e.Pass? && !Actuating(s.mode)
    ensures PassStep(cfg, s, e).mode == s.mode && PassStep(cfg, s, e).armed == s.armed
  {
    hide WriteWheels, ArmDrive, BodyToWheels;
  }

  /** While estopped every wheel stays halted, no goal register of any servo changes, and torque only goes off. */
  lemma {:induction false} EstopFreezes(cfg: Config, r: Run, i: nat, j: nat)
    requires IsRun(cfg, r) && i <= j < |r.states|
    requires forall k | i <= k <= j :: r.states[k].mode == Estop
    ensures Halted(r.states[j].servos, AllWheels(cfg))
    ensures Frozen(r.states[i].servos, r.states[j].servos)
    decreases j - i
  {
    hide Step, Enabled, Frozen, Inv, Halted, AllWheels;
    InvAlong(cfg, r, j);
    EstopHalted(cfg, r.states[j]);
    if i == j {
      FrozenSelf(r.states[i].servos);
    } else {
      EstopFreezes(cfg, r, i, j - 1);
      InvAlong(cfg, r, j - 1);
      EstopStep(cfg, r.states[j - 1], r.events[j - 1]);
      FrozenThen(r.states[i].servos, r.states[j - 1].servos, r.states[j].servos);
    }
  }

  lemma EstopHalted(cfg: Config, s: Core)
    requires Inv(cfg, s) && s.mode == Estop
    ensures Halted(s.servos, AllWheels(cfg))
  {
  }

  lemma FrozenSelf(m: Servos)
    ensures Frozen(m, m)
  {
  }

  lemma ArmingStep(cfg: Config, s: Core, e: Event)
    requires ValidConfig(cfg) && Inv(cfg, s) && Enabled(cfg, s, e) && !s.armed && Step(cfg, s, e).armed
    ensures e.SetMode? && e.req.Some? && Actuating(FromProto(e.req.value)) && AllowsMode(s, FromProto(e.req.value))
    ensures Step(cfg, s, e).mode == FromProto(e.req.value)
  {
    if FromModule(e) {
      ModuleFrame(cfg, s, e);
    } else {
      hide Transition, ControlStep, ReadStep, BootStep, PassStep, Wired, Halted, AllStopped;
      TransitionToSelf(cfg, s);
      forall to | to != s.mode { TransitionArms(cfg, s, to); }
      forall to | to != s.mode { TransitionFrame(cfg, s, to); }
      if e.Boot? { BootStays(cfg, s, e.t); }
      if e.Pass? { PassStays(cfg, s, e); }
    }
  }

  lemma TransitionArms(cfg: Config, s: Core, to: Mode)
    requires to != s.mode
    ensures Transition(cfg, s, to).armed == if cfg.hasDrive then Actuating(to) else s.armed
  {
    hide WriteWheels, WithTorques, Halt;
  }

  lemma BootStays(cfg: Config, s: Core, t: int)
    requires !s.armed
    ensures !BootStep(cfg, s, t).armed
  {
    hide WriteWheels, WithTorques, EnsureModes, Discovered, Aux;
  }

  lemma PassStays(cfg: Config, s: Core, e: Event)
    requires ValidConfig(cfg) && e.Pass? && !s.armed
    ensures !PassStep(cfg, s, e).armed
  {
    hide WriteWheels, BodyToWheels, WithTorques, Halt;
  }

  /** The event that armed the drive, later than a moment when it was not armed. */
  lemma {:induction false} FindArming(cfg: Config, r: Run, i: nat, j: nat) returns (a: nat)
    requires IsRun(cfg, r) && i <= j < |r.states| && !r.states[i].armed && r.states[j].armed
    ensures i <= a < j && !r.states[a].armed && r.states[a + 1].armed
    decreases j - i
  {
    hide IsRun;
    if r.states[j - 1].armed { a := FindArming(cfg, r, i, j - 1); } else { a := j - 1; }
  }

  lemma {:induction false} FindRelease(cfg: Config, r: Run, i: nat, j: nat) returns (a: nat)
    requires IsRun(cfg, r) && i <= j < |r.states| && r.states[i].mode == Estop && r.states[j].mode != Estop
    ensures i <= a < j && r.states[a].mode == Estop && r.states[a + 1].mode != Estop
    decreases j - i
  {
    hide IsRun;
    if r.states[j - 1].mode != Estop { a := FindRelease(cfg, r, i, j - 1); } else { a := j - 1; }
  }

  /**
   Estop latches: between an estop and any later armed state there is a recover, to
   Safe, and after it an accepted set_mode to an actuating mode with a live heartbeat.
   */
  lemma EstopLatches(cfg: Config, r: Run, i: nat, j: nat) returns (release: nat, arming: nat)
    requires IsRun(cfg, r) && i <= j < |r.states| && r.states[i].mode == Estop && r.states[j].armed
    ensures i <= release < arming < j
    ensures r.events[release].RecoverRpc? && r.states[release].mode == Estop && r.states[release + 1].mode == Safe
    ensures r.events[arming].SetMode? && r.events[arming].req.Some? && Actuating(FromProto(r.events[arming].req.value))
    ensures AllowsMode(r.states[arming], FromProto(r.events[arming].req.value)) && r.states[arming].wd.alive
  {
    InvAlong(cfg, r, j);
    release := FindRelease(cfg, r, i, j);
    InvAlong(cfg, r, release);
    hide Step, Enabled;
    EstopStep(cfg, r.states[release], r.events[release]);
    arming := FindArming(cfg, r, release + 1, j);
    InvAlong(cfg, r, arming);
    ArmingStep(cfg, r.states[arming], r.events[arming]);
  }
}
