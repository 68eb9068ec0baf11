/**
 Which servos an emergency stop reaches: the mode callback of core/src/main.cpp against
 the module servo gate and the ownership that the platform descriptor declares.
 */
module EstopReach {
  import opened Prelude
  import opened ServoRegisters
  import opened ServoBus
  import opened DriveKinematics
  import opened Actuation
  import opened ActuationInvariant
  import opened ActuationRuns

  // ----- Servos that core does not write

  predicate Untouched(m: Servos, m': Servos, id: byte) {
    (id in m' <==> id in m) && (id in m ==> m'[id] == m[id])
  }

  lemma PokeOther(m: Servos, id: byte, addr: byte, data: seq<byte>, other: byte)
    requires other != id
    ensures Untouched(m, Poke(m, id, addr, data), other)
  {
  }

  lemma TorqueOther(m: Servos, id: byte, on: bool, other: byte)
    requires other != id
    ensures Untouched(m, WithTorque(m, id, on), other)
  {
    hide Poke;
    forall m, addr, data { PokeOther(m, id, addr, data, other); }
  }

  lemma {:induction false} TorquesOther(m: Servos, ids: seq<byte>, on: bool, other: byte)
    requires other !in ids
    ensures Untouched(m, WithTorques(m, ids, on), other)
    decreases |ids|
  {
    hide WithTorque;
    if ids != [] {
      assert ids[0] in ids;
      TorqueOther(m, ids[0], on, other);
      TorquesOther(WithTorque(m, ids[0], on), ids[1..], on, other);
    }
  }

  lemma WheelOther(cfg: Config, m: Servos, id: byte, radps: real, other: byte)
    requires other != id
    ensures Untouched(m, WriteWheel(cfg, m, id, radps), other)
  {
    if id in cfg.info {
      PokeOther(m, id, GOAL_SPEED, SpeedBytes(RawFromRadps(Mounted(cfg.info[id].invert, radps))), other);
    }
  }

  lemma WheelsOther(cfg: Config, m: Servos, v: WheelVel, other: byte)
    requires other !in WheelIds(cfg.wheels)
    ensures Untouched(m, WriteWheels(cfg, m, v), other)
  {
    hide WriteWheel;
    var w := cfg.wheels;
    var ids := WheelIds(w);
    assert w.frontLeft in ids && w.frontRight in ids && w.backLeft in ids && w.backRight in ids;
    var m1 := WriteWheel(cfg, m, w.frontLeft, v.frontLeft);
    var m2 := WriteWheel(cfg, m1, w.frontRight, v.frontRight);
    var m3 := WriteWheel(cfg, m2, w.backLeft, v.backLeft);
    WheelOther(cfg, m, w.frontLeft, v.frontLeft, other);
    WheelOther(cfg, m1, w.frontRight, v.frontRight, other);
    WheelOther(cfg, m2, w.backLeft, v.backLeft, other);
    WheelOther(cfg, m3, w.backRight, v.backRight, other);
  }

  lemma {:induction false} HaltOther(cfg: Config, m: Servos, ids: seq<byte>, other: byte)
    requires other !in ids
    ensures Untouched(m, Halt(cfg, m, ids), other)
    decreases |ids|
  {
    hide WithTorque, WriteWheel;
    if ids != [] {
      assert ids[0] in ids;
      var m1 := WriteWheel(cfg, m, ids[0], 0.0);
      WheelOther(cfg, m, ids[0], 0.0, other);
      TorqueOther(m1, ids[0], false, other);
      HaltOther(cfg, WithTorque(m1, ids[0], false), ids[1..], other);
    }
  }

  lemma ArmDriveOther(cfg: Config, s: Core, on: bool, other: byte)
    requires other !in DriveIds(cfg)
    ensures Untouched(s.servos, ArmDrive(cfg, s, on).servos, other)
  {
    if cfg.hasDrive {
      hide WriteWheels, WithTorques;
      assert other !in WheelIds(cfg.wheels);
      WheelsOther(cfg, s.servos, STILL, other);
      TorquesOther(if on then s.servos else WriteWheels(cfg, s.servos, STILL), WheelIds(cfg.wheels), on, other);
    }
  }

  /** A mode change writes to the drive wheels and, into estop, to the module wheels, and to no other servo. */
  lemma TransitionOther(cfg: Config, s: Core, to: Mode, other: byte)
    requires other !in AllWheels(cfg)
    ensures Untouched(s.servos, Transition(cfg, s, to).servos, other)
  {
    hide ArmDrive, Halt;
    if to != s.mode {
      var s1 := s.(mode := to, target := if cfg.hasDrive then STOP else s.target);
      var s2 := ArmDrive(cfg, s1, Actuating(to));
      ArmDriveOther(cfg, s1, Actuating(to), other);
      assert other !in cfg.moduleWheels;
      HaltOther(cfg, s2.servos, cfg.moduleWheels, other);
    }
  }

  // ----- Servos that nobody turns

  /** Neither the core nor a module may give this servo a speed. */
  ghost predicate OutOfReach(cfg: Config, id: byte) { id !in AllWheels(cfg) && !Gated(cfg, id as int) }

  ghost predicate KeepsSpeed(m: Servos, m': Servos, id: byte) { id in m' && (Stopped(m', id) <==> Stopped(m, id)) }

  lemma BootKeeps(cfg: Config, s: Core, t: int, id: byte)
    requires OutOfReach(cfg, id) && id in s.servos
    ensures KeepsSpeed(s.servos, BootStep(cfg, s, t).servos, id)
  {
    hide Frozen, EnsureModes, Discovered, Aux, WithTorques, ArmDrive, Stopped;
    var present := Discovered(s.servos, cfg.busIds);
    var s1 := s.(servos := EnsureModes(cfg, s.servos, present));
    EnsureModesFrozen(cfg, s.servos, present);
    FrozenServo(s.servos, s1.servos, id);
    var s2 := ArmDrive(cfg, s1, false);
    ArmDriveOther(cfg, s1, false, id);
    UntouchedSpeed(s1.servos, s2.servos, id);
    TorquesOffFrozen(s2.servos, Aux(cfg, present));
    FrozenServo(s2.servos, BootStep(cfg, s, t).servos, id);
  }

  lemma FrozenServo(m: Servos, m': Servos, id: byte)
    requires Frozen(m, m') && id in m
    ensures KeepsSpeed(m, m', id)
  {
    FrozenKeeps(m, m', id);
  }

  lemma UntouchedSpeed(m: Servos, m': Servos, id: byte)
    requires Untouched(m, m', id) && id in m
    ensures KeepsSpeed(m, m', id)
  {
  }

  lemma TouchedSpeed(m: Servos, m': Servos, moved: set<byte>, torqued: set<byte>, id: byte)
    requires Touches(m, m', moved, torqued) && id in m && id !in moved
    ensures KeepsSpeed(m, m', id)
  {
    TouchesKeeps(m, m', moved, torqued, id);
  }

  lemma PassKeeps(cfg: Config, s: Core, e: Event, id: byte)
    requires ValidConfig(cfg) && e.Pass? && OutOfReach(cfg, id) && id in s.servos
    ensures KeepsSpeed(s.servos, PassStep(cfg, s, e).servos, id)
  {
    hide Transition, WriteWheels, BodyToWheels, Stopped;
    var w := s.(wd := s.wd.(alive := false), heartbeatOk := false);
    TransitionOther(cfg, w, Safe, id);
    var c := Checked(cfg, s, e);
    assert Untouched(s.servos, c.servos, id);
    hide Checked;
    if Commanded(cfg, s, e).Some? {
      assert id !in WheelIds(cfg.wheels);
      WheelsOther(cfg, c.servos, BodyToWheels(cfg.kin, Commanded(cfg, s, e).value), id);
    }
    UntouchedSpeed(s.servos, PassStep(cfg, s, e).servos, id);
  }

  lemma ModuleKeeps(cfg: Config, s: Core, e: Event, id: byte)
    requires ValidConfig(cfg) && FromModule(e) && Enabled(cfg, s, e) && OutOfReach(cfg, id) && id in s.servos
    ensures KeepsSpeed(s.servos, Step(cfg, s, e).servos, id)
  {
    hide ControlStep, ReadStep, SyncGoals, SyncList, Touches, Frozen, Stopped;
    match e
    case ServoControl(other, op) =>
      if Gated(cfg, other) && s.mode != Estop {
        ControlTouches(cfg, s, other, op);
        TouchedSpeed(s.servos, ControlStep(cfg, s, other, op).servos, {other}, {other}, id);
      }
    case ServoSync(goals) =>
      if s.mode != Estop {
        var list := SyncList(cfg, goals);
        SyncListGated(cfg, goals);
        SyncTouches(s.servos, list);
        TouchedSpeed(s.servos, SyncGoals(s.servos, list), set g | g in list :: g.0, {}, id);
      }
    case ServoRead(other) =>
      ReadFrozen(cfg, s, other);
      FrozenServo(s.servos, ReadStep(cfg, s, other).servos, id);
    case Plant(m) =>
      PlantFrozen(s.servos, m);
      FrozenServo(s.servos, m, id);
  }

  lemma StepKeeps(cfg: Config, s: Core, e: Event, id: byte)
    requires ValidConfig(cfg) && Enabled(cfg, s, e) && OutOfReach(cfg, id) && id in s.servos
    ensures KeepsSpeed(s.servos, Step(cfg, s, e).servos, id)
  {
    if FromModule(e) {
      ModuleKeeps(cfg, s, e, id);
    } else {
      hide Transition, BootStep, PassStep, Stopped;
      forall to ensures KeepsSpeed(s.servos, Transition(cfg, s, to).servos, id) {
        TransitionOther(cfg, s, to, id);
        UntouchedSpeed(s.servos, Transition(cfg, s, to).servos, id);
      }
      match e
      case Boot(t) => BootKeeps(cfg, s, t, id);
      case Pass(_, _, _) => PassKeeps(cfg, s, e, id);
      case _ =>
    }
  }

  /** A servo out of reach keeps its speed through every run, estop or not. */
  lemma {:induction false} OutOfReachKeeps(cfg: Config, r: Run, i: nat, id: byte)
    requires IsRun(cfg, r) && i < |r.states| && OutOfReach(cfg, id) && id in r.states[0].servos
    ensures KeepsSpeed(r.states[0].servos, r.states[i].servos, id)
    decreases i
  {
    hide Step, Enabled, Stopped;
    if i > 0 {
      OutOfReachKeeps(cfg, r, i - 1, id);
      StepKeeps(cfg, r.states[i - 1], r.events[i - 1], id);
    }
  }

  // ----- Servos that a module turns and core does not stop

  /** In wheel mode, with a speed: such a servo turns with torque on or off. */
  predicate Spinning(m: Servos, id: byte) { id in m && m[id].regs[0x21] == 1 && !Stopped(m, id) }

  lemma ModeRequest(cfg: Config, s: Core, id: byte)
    requires ValidConfig(cfg) && s.mode == Safe && Gated(cfg, id as int) && Addressable(s.servos, id)
    ensures var s' := Step(cfg, s, ServoControl(id as int, OpMode(1)));
      s' == s.(servos := s'.servos) && Addressable(s'.servos, id) && s'.servos[id].regs[0x21] == 1
  {
    var m := s.servos;
    var m1 := WithLock(m, id, false);
    var m2 := Poke(m1, id, MODE, [1]);
    PokeFrame(m, id, LOCK, FlagByte(false), id, LOCK as int);
    PokeFrame(m1, id, MODE, [1], id, 0x21);
    PokeFrame(m2, id, LOCK, FlagByte(true), id, 0x21);
  }

  lemma SpeedKeepsMode(cfg: Config, s: Core, id: byte)
    requires ValidConfig(cfg) && s.mode == Safe && Gated(cfg, id as int) && Addressable(s.servos, id)
    requires s.servos[id].regs[0x21] == 1
    ensures var s' := Step(cfg, s, ServoControl(id as int, OpGoalVelocity(1)));
      s' == s.(servos := s'.servos) && Spinning(s'.servos, id)
  {
    SpeedRequest(cfg, s, id);
    PokeFrame(s.servos, id, GOAL_SPEED, SpeedBytes(1), id, 0x21);
  }

  lemma BootKeepsServo(cfg: Config, s: Core, id: byte)
    requires ValidConfig(cfg) && Initial(cfg, s) && Addressable(s.servos, id)
    ensures var s' := Step(cfg, s, Boot(0));
      s' == s.(servos := s'.servos, booted := true, next50 := 0) && Addressable(s'.servos, id)
  {
    hide Addressable;
    BootedSafe(cfg, s);
    BootAddressable(cfg, s, id);
  }

  lemma BootAddressable(cfg: Config, s: Core, id: byte)
    requires Wired(cfg, s.servos) && Addressable(s.servos, id)
    ensures Addressable(BootStep(cfg, s, 0).servos, id)
  {
    hide Frozen, Touches, EnsureModes, Discovered, Aux, WithTorques, WriteWheels, Stopped, Limp, Addressable, Wired;
    var present := Discovered(s.servos, cfg.busIds);
    var s1 := s.(servos := EnsureModes(cfg, s.servos, present));
    KnownServo(s.servos, id);
    EnsureModesFrozen(cfg, s.servos, present);
    FrozenInv(cfg, s.servos, s1.servos);
    FrozenKeeps(s.servos, s1.servos, id);
    var s2 := ArmDrive(cfg, s1, false);
    KnownServo(s1.servos, id);
    ArmDriveHalts(cfg, s1);
    TouchesKeeps(s1.servos, s2.servos, DriveIds(cfg), DriveIds(cfg), id);
    KnownServo(s2.servos, id);
    TorquesOffFrozen(s2.servos, Aux(cfg, present));
    FrozenKeeps(s2.servos, BootStep(cfg, s, 0).servos, id);
  }

  function Start(m: Servos): Core {
    Core(Safe, false, Timer(0, false), Timer(0, false), false, STOP, 0, false, map[], m)
  }

  /** Boot, a module's request for wheel mode, its request for a speed, and an estop that leaves the servo spinning. */
  lemma EscapesEstop(cfg: Config, m: Servos, id: byte) returns (r: Run)
    requires ValidConfig(cfg) && Wired(cfg, m) && Addressable(m, id)
    requires Gated(cfg, id as int) && id !in AllWheels(cfg)
    ensures IsRun(cfg, r) && |r.states| == 5 && r.states[0] == Start(m)
    ensures r.events[1..] == [ServoControl(id as int, OpMode(1)), ServoControl(id as int, OpGoalVelocity(1)), EstopRpc]
    ensures r.states[4].mode == Estop && Spinning(r.states[4].servos, id)
  {
    var s0 := Start(m);
    var e1, e2 := ServoControl(id as int, OpMode(1)), ServoControl(id as int, OpGoalVelocity(1));
    BootKeepsServo(cfg, s0, id);
    hide Step, Wired, Addressable, Stopped, Transition;
    var s1 := Step(cfg, s0, Boot(0));
    ModeRequest(cfg, s1, id);
    var s2 := Step(cfg, s1, e1);
    SpeedKeepsMode(cfg, s2, id);
    var s3 := Step(cfg, s2, e2);
    var s4 := Step(cfg, s3, EstopRpc);
    EstopEntered(cfg, s3, id);
    r := Run([s0, s1, s2, s3, s4], [Boot(0), e1, e2, EstopRpc]);
  }

  lemma EstopEntered(cfg: Config, s: Core, id: byte)
    requires ValidConfig(cfg) && id !in AllWheels(cfg) && id in s.servos
    ensures var s' := Step(cfg, s, EstopRpc); s'.mode == Estop && Untouched(s.servos, s'.servos, id)
    ensures Spinning(s.servos, id) ==> Spinning(Step(cfg, s, EstopRpc).servos, id)
    ensures Stopped(Step(cfg, s, EstopRpc).servos, id) <==> Stopped(s.servos, id)
  {
    TransitionOther(cfg, s, Estop, id);
    TransitionFrame(cfg, s, Estop);
  }

  /** A servo with a speed from before the core started, and an estop right away. */
  lemma SpinningFromBefore(cfg: Config, m: Servos, id: byte) returns (r: Run)
    requires ValidConfig(cfg) && Wired(cfg, m) && id in m && !Stopped(m, id) && id !in AllWheels(cfg)
    ensures IsRun(cfg, r) && |r.states| == 2 && r.states[0] == Start(m)
    ensures r.states[1].mode == Estop && !Stopped(r.states[1].servos, id)
  {
    hide Step, Wired, Stopped;
    EstopEntered(cfg, Start(m), id);
    r := Run([Start(m), Step(cfg, Start(m), EstopRpc)], [EstopRpc]);
  }

  // ----- Exactly which servos an estop stops

  ghost predicate EstopStops(cfg: Config, id: byte, fromRest: bool) {
    forall r: Run, i | IsRun(cfg, r) && StartsWith(r, id, fromRest) && 0 <= i < |r.states| && r.states[i].mode == Estop
      :: Stopped(r.states[i].servos, id)
  }

  /** The servo answers on the bus when the core starts, and, `fromRest`, has no speed yet. */
  ghost predicate StartsWith(r: Run, id: byte, fromRest: bool) {
    |r.states| > 0 && Addressable(r.states[0].servos, id) && (fromRest ==> Stopped(r.states[0].servos, id))
  }

  lemma WithSpeed(cfg: Config, m: Servos, id: byte, data: seq<byte>)
    requires Wired(cfg, m) && Addressable(m, id) && |data| == 2
    ensures var m' := Poke(m, id, GOAL_SPEED, data);
      Wired(cfg, m') && Addressable(m', id) && (Stopped(m', id) <==> data == [0, 0])
  {
    hide Touches, Addressable, Stopped, Poke;
    KnownServo(m, id);
    PokeTouches(m, id, GOAL_SPEED, data);
    var m' := Poke(m, id, GOAL_SPEED, data);
    WiredKept(cfg, m, m', {id}, {});
    TouchesKeeps(m, m', {id}, {}, id);
    SpeedStored(m, id, data);
  }

  lemma SpeedStored(m: Servos, id: byte, data: seq<byte>)
    requires Addressable(m, id) && |data| == 2
    ensures Stopped(Poke(m, id, GOAL_SPEED, data), id) <==> data == [0, 0]
  {
    PokeFrame(m, id, GOAL_SPEED, data, id, 0x2E);
    PokeFrame(m, id, GOAL_SPEED, data, id, 0x2F);
  }

  /**
   In all runs, and whatever the servo did before, estop leaves it stopped exactly if
   it is a drive wheel or a module wheel. In the runs that start with it at rest, also
   if the gate refuses it: then nobody ever gives it a speed.
   */
  lemma EstopStopsIff(cfg: Config, m: Servos, id: byte)
    requires ValidConfig(cfg) && Wired(cfg, m) && Addressable(m, id)
    ensures EstopStops(cfg, id, false) <==> id in AllWheels(cfg)
    ensures EstopStops(cfg, id, true) <==> (Gated(cfg, id as int) ==> id in AllWheels(cfg))
  {
    if id in AllWheels(cfg) {
      WheelStops(cfg, id);
    } else {
      hide IsRun, Wired, Stopped, Addressable, AllWheels;
      var moving, still := Poke(m, id, GOAL_SPEED, [1, 0]), Poke(m, id, GOAL_SPEED, [0, 0]);
      WithSpeed(cfg, m, id, [1, 0]);
      KnownServo(moving, id);
      var r := SpinningFromBefore(cfg, moving, id);
      assert StartsWith(r, id, false);
      if Gated(cfg, id as int) {
        WithSpeed(cfg, m, id, [0, 0]);
        var r' := EscapesEstop(cfg, still, id);
        assert StartsWith(r', id, true);
      } else {
        RestStops(cfg, id);
      }
    }
  }

  lemma WheelStops(cfg: Config, id: byte)
    requires id in AllWheels(cfg)
    ensures EstopStops(cfg, id, false) && EstopStops(cfg, id, true)
  {
    hide IsRun, Stopped, StartsWith;
    forall r: Run, i | IsRun(cfg, r) && 0 <= i < |r.states| && r.states[i].mode == Estop
      ensures Stopped(r.states[i].servos, id)
    {
      EstopFreezes(cfg, r, i, i);
    }
  }

  lemma RestStops(cfg: Config, id: byte)
    requires OutOfReach(cfg, id)
    ensures EstopStops(cfg, id, true)
  {
    hide IsRun, OutOfReach;
    forall r: Run, i | IsRun(cfg, r) && StartsWith(r, id, true) && 0 <= i < |r.states| && r.states[i].mode == Estop
      ensures Stopped(r.states[i].servos, id)
    {
      OutOfReachKeeps(cfg, r, i, id);
    }
  }
}
