/**
 The objects of the actuation core, each handler and loop pass proved to be one step
 of the model: core/src/watchdog, core/src/mode, core/src/control,
 core/src/servo/ServoControlServer.cpp and the wiring of core/src/main.cpp. Servo
 writes go through the bus, the simulated UART and its byte frames.
 */
module CoreDaemon {
  import opened Prelude
  import opened ServoRegisters
  import opened ServoBus
  import opened DriveKinematics
  import opened Actuation

  class Watchdog {
    const timeout: int
    var lastKick: int
    var alive: bool

    constructor (timeout: int)
      ensures this.timeout == timeout && !alive
    {
      this.timeout, lastKick, alive := timeout, 0, false;
    }

    ghost function Value(): Timer
      reads this
    {
      Timer(lastKick, alive)
    }

    method Kick(now: int)
      modifies this
      ensures Value() == Timer(now, true)
    {
      lastKick := now;
      alive := true;
    }

    method TickAndCheck(now: int) returns (crossed: bool)
      modifies this
      ensures crossed == Expired(old(Value()), now, timeout)
      ensures Value() == if crossed then old(Value()).(alive := false) else old(Value())
    {
      if !alive { return false; }
      if now - lastKick > timeout {
        alive := false;
        return true;
      }
      return false;
    }
  }

  /** The callback of the source is the returned flag: true when the mode has changed. */
  class ModeMachine {
    var mode: Mode
    var heartbeatOk: bool

    constructor ()
      ensures mode == Safe && !heartbeatOk
    {
      mode, heartbeatOk := Safe, false;
    }

    method Transition(to: Mode) returns (changed: bool)
      modifies this
      ensures mode == to && changed == (old(mode) != to) && heartbeatOk == old(heartbeatOk)
    {
      if to == mode { return false; }
      mode := to;
      changed := true;
    }

    method RequestSetMode(target: Mode) returns (ok: bool, changed: bool)
      modifies this
      ensures heartbeatOk == old(heartbeatOk)
      ensures ok == (old(mode) != Estop && (Actuating(target) ==> heartbeatOk))
      ensures mode == (if ok then target else old(mode)) && changed == (old(mode) != mode)
    {
      if mode == Estop { return false, false; }
      if Actuating(target) && !heartbeatOk { return false, false; }
      changed := Transition(target);
      ok := true;
    }

    method RequestRecover() returns (ok: bool)
      modifies this
      ensures heartbeatOk == old(heartbeatOk) && ok == (old(mode) == Estop)
      ensures mode == if ok then Safe else old(mode)
    {
      if mode == Estop {
        ok := Transition(Safe);
        return;
      }
      return false;
    }

    method OnHeartbeatLost() returns (changed: bool)
      modifies this
      ensures !heartbeatOk && changed == Actuating(old(mode)) && mode == if changed then Safe else old(mode)
    {
      heartbeatOk := false;
      changed := false;
      if Actuating(mode) { changed := Transition(Safe); }
    }

    method OnHeartbeatRestored()
      modifies this
      ensures heartbeatOk && mode == old(mode)
    {
      heartbeatOk := true;
    }
  }

  class DriveController {
    var target: BodyVel
    var armed: bool

    constructor ()
      ensures target == STOP && !armed
    {
      target, armed := STOP, false;
    }

    method SetBodyTarget(t: BodyVel)
      modifies this
      ensures target == t && armed == old(armed)
    {
      target := t;
    }

    method SetArmed(on: bool)
      modifies this
      ensures armed == on && target == if on then old(target) else STOP
    {
      armed := on;
      if !on { target := STOP; }
    }
  }

  class Daemon {
    const cfg: Config
    const bus: Sts3215Bus
    const mode: ModeMachine
    const wd: Watchdog
    const ds: Watchdog
    const drive: DriveController
    var next50: int
    var booted: bool
    var ceil: map<int, word>

    constructor (cfg: Config, bus: Sts3215Bus)
      requires ValidConfig(cfg) && bus.Quiet()
      ensures Valid() && this.cfg == cfg && this.bus == bus
      ensures State() == Core(Safe, false, wd.Value(), ds.Value(), false, STOP, 0, false, map[], bus.Regs())
      ensures !wd.alive && !ds.alive && fresh(Repr() - {bus.uart, bus.uart.model})
    {
      this.cfg, this.bus := cfg, bus;
      mode := new ModeMachine();
      wd := new Watchdog(HEARTBEAT_TIMEOUT);
      ds := new Watchdog(DRIVE_TIMEOUT);
      drive := new DriveController();
      next50, booted, ceil := 0, false, map[];
    }

    ghost function Repr(): set<object> { {this, mode, wd, ds, drive, bus.uart, bus.uart.model} }

    ghost predicate Valid()
      reads Repr()
    {
      && ValidConfig(cfg) && bus.Quiet() && wd != ds
      && wd.timeout == HEARTBEAT_TIMEOUT && ds.timeout == DRIVE_TIMEOUT
    }

    ghost function State(): Core
      reads Repr()
    {
      Core(mode.mode, mode.heartbeatOk, wd.Value(), ds.Value(), drive.armed, drive.target,
           next50, booted, ceil, bus.Regs())
    }

    // ----- Joint driver

    method WriteJoint(id: byte, radps: real)
      requires Valid()
      modifies bus.uart, bus.uart.model
      ensures Valid() && State() == old(State()).(servos := WriteWheel(cfg, old(bus.Regs()), id, radps))
    {
      if id !in cfg.info { return; }
      var _ := bus.SetGoalSpeed(id, RawFromRadps(Mounted(cfg.info[id].invert, radps)));
    }

    method WriteCommands(v: WheelVel)
      requires Valid()
      modifies bus.uart, bus.uart.model
      ensures Valid() && State() == old(State()).(servos := WriteWheels(cfg, old(bus.Regs()), v))
    {
      hide WriteWheel;
      WriteJoint(cfg.wheels.frontLeft, v.frontLeft);
      WriteJoint(cfg.wheels.frontRight, v.frontRight);
      WriteJoint(cfg.wheels.backLeft, v.backLeft);
      WriteJoint(cfg.wheels.backRight, v.backRight);
    }

    method SetTorque(id: byte, on: bool)
      requires Valid()
      modifies bus.uart, bus.uart.model
      ensures Valid() && State() == old(State()).(servos := WithTorque(old(bus.Regs()), id, on))
    {
      if on { var _ := bus.EnableTorqueHoldingPosition(id); } else { var _ := bus.SetTorqueEnable(id, false); }
    }

    method SetTorques(ids: seq<byte>, on: bool)
      requires Valid()
      modifies bus.uart, bus.uart.model
      ensures Valid() && State() == old(State()).(servos := WithTorques(old(bus.Regs()), ids, on))
    {
      hide WithTorque;
      for i := 0 to |ids|
        invariant Valid() && State() == old(State()).(servos := bus.Regs())
        invariant WithTorques(bus.Regs(), ids[i..], on) == WithTorques(old(bus.Regs()), ids, on)
      {
        SetTorque(ids[i], on);
      }
    }

    method EnsureModesOn(ids: seq<byte>)
      requires Valid()
      modifies bus.uart, bus.uart.model
      ensures Valid() && State() == old(State()).(servos := EnsureModes(cfg, old(bus.Regs()), ids))
    {
      for i := 0 to |ids|
        invariant Valid() && State() == old(State()).(servos := bus.Regs())
        invariant EnsureModes(cfg, bus.Regs(), ids[i..]) == EnsureModes(cfg, old(bus.Regs()), ids)
      {
        EnsureModeOn(ids[i]);
      }
    }

    method EnsureModeOn(id: byte)
      requires Valid()
      modifies bus.uart, bus.uart.model
      ensures Valid() && State() == old(State()).(servos := EnsureMode(cfg, old(bus.Regs()), id))
    {
      if id !in cfg.info { return; }
      var desired: byte := if cfg.info[id].isWheel then 1 else 0;
      var cur := bus.ReadOperatingMode(id);
      if cur.Some? && cur.value == desired { return; }
      var _ := bus.SetTorqueEnable(id, false);
      var _ := bus.SetEepromLock(id, false);
      var _ := bus.SetOperatingMode(id, desired);
      var _ := bus.SetEepromLock(id, true);
    }

    // ----- Arming and mode changes

    method Arm(on: bool)
      requires Valid()
      modifies drive, bus.uart, bus.uart.model
      ensures Valid() && State() == ArmDrive(cfg, old(State()), on)
    {
      hide WriteWheels, WithTorques;
      if !cfg.hasDrive { return; }
      drive.SetArmed(on);
      if !on { WriteCommands(STILL); }
      SetTorques(WheelIds(cfg.wheels), on);
    }

    method HaltServos(ids: seq<byte>)
      requires Valid()
      modifies bus.uart, bus.uart.model
      ensures Valid() && State() == old(State()).(servos := Halt(cfg, old(bus.Regs()), ids))
    {
      hide WriteWheel, WithTorque;
      for i := 0 to |ids|
        invariant Valid() && State() == old(State()).(servos := bus.Regs())
        invariant Halt(cfg, bus.Regs(), ids[i..]) == Halt(cfg, old(bus.Regs()), ids)
      {
        WriteJoint(ids[i], 0.0);
        SetTorque(ids[i], false);
      }
    }

    /** The mode machine's change callback; `was` is the state as it stood before the change. */
    method OnChange(now: Mode, ghost was: Core)
      requires Valid() && was.mode != now && State() == was.(mode := now)
      modifies drive, bus.uart, bus.uart.model
      ensures Valid() && State() == Transition(cfg, was, now)
    {
      hide ArmDrive, Halt;
      if cfg.hasDrive { drive.SetBodyTarget(STOP); }
      Arm(Actuating(now));
      if now == Estop { HaltServos(cfg.moduleWheels); }
    }

    // ----- Handlers

    method OnHeartbeat(t: int)
      requires Valid()
      modifies wd, mode
      ensures Valid() && State() == Step(cfg, old(State()), Heartbeat(t))
    {
      wd.Kick(t);
      mode.OnHeartbeatRestored();
    }

    method OnDrive(t: int, cmd: Option<BodyVel>)
      requires Valid()
      modifies drive, ds
      ensures Valid() && State() == Step(cfg, old(State()), DriveCmd(t, cmd))
    {
      if !cfg.hasDrive { return; }
      if mode.mode != Manual && mode.mode != Autonomous { return; }
      if cmd.None? { return; }
      drive.SetBodyTarget(cmd.value);
      ds.Kick(t);
    }

    method OnSetMode(req: Option<int>)
      requires Valid()
      modifies mode, drive, bus.uart, bus.uart.model
      ensures Valid() && State() == Step(cfg, old(State()), SetMode(req))
    {
      hide ArmDrive, Halt;
      if req.None? { return; }
      var target := FromProto(req.value);
      var changed;
      if target == Estop {
        changed := mode.Transition(Estop);
      } else {
        var _, c := mode.RequestSetMode(target);
        changed := c;
      }
      if changed { OnChange(target, old(State())); }
    }

    method OnEstop()
      requires Valid()
      modifies mode, drive, bus.uart, bus.uart.model
      ensures Valid() && State() == Step(cfg, old(State()), EstopRpc)
    {
      hide ArmDrive, Halt;
      var changed := mode.Transition(Estop);
      if changed { OnChange(Estop, old(State())); }
    }

    method OnRecover()
      requires Valid()
      modifies mode, drive, bus.uart, bus.uart.model
      ensures Valid() && State() == Step(cfg, old(State()), RecoverRpc)
    {
      hide ArmDrive, Halt;
      var ok := mode.RequestRecover();
      if ok { OnChange(Safe, old(State())); }
    }

    method HandleControl(id: nat, op: ServoOp)
      requires Valid()
      modifies this, bus.uart, bus.uart.model
      ensures Valid() && State() == Step(cfg, old(State()), ServoControl(id, op))
    {
      if id < 1 || id > 12 { return; }
      if id in cfg.platformOwned { return; }
      if mode.mode == Estop { return; }
      if op.OpOvercurrent? {
        ceil := ceil[id := op.v % 0x1_0000];
      } else {
        ApplyOp(id, op);
      }
    }

    method ApplyOp(id: byte, op: ServoOp)
      requires Valid() && !op.OpOvercurrent?
      modifies bus.uart, bus.uart.model
      ensures Valid() && State() == ControlStep(cfg, old(State()), id, op)
    {
      hide Poke, WithTorque, Tune;
      match op
      case OpMode(v) =>
        var _ := bus.SetEepromLock(id, false);
        var _ := bus.SetOperatingMode(id, v % 256);
        var _ := bus.SetEepromLock(id, true);
      case OpTorque(on) => SetTorque(id, on);
      case OpGoalPosition(v) => var _ := bus.SetGoalPosition(id, v % 4096);
      case OpTorqueLimit(v) => var _ := bus.SetTorqueLimit(id, v % 0x1_0000);
      case OpAngleLimits(lo, hi) => var _ := bus.SetAngleLimits(id, lo % 0x1_0000, hi % 0x1_0000);
      case OpGoalSpeed(v) => var _ := bus.SetGoalSpeed(id, v % 0x8000);
      case OpGoalVelocity(v) =>
        var c := v;
        if c > 32767 { c := 32767; }
        if c < -32767 { c := -32767; }
        var _ := bus.SetGoalSpeed(id, c);
      case OpTuning(t) => var _ := bus.SetTuning(id, t);
      case OpNone =>
    }

    /** Longer goal lists still go out, in a frame whose length byte has wrapped. */
    method HandleSync(goals: seq<(nat, nat)>)
      requires Valid()
      modifies bus.uart, bus.uart.model
      ensures mode.mode == Estop || |SyncList(cfg, goals)| <= 83 ==>
                Valid() && State() == Step(cfg, old(State()), ServoSync(goals))
      ensures mode.mode != Estop && |SyncList(cfg, goals)| > 83 ==>
                bus.uart.State() == SyncSent(old(bus.uart.State()), SyncList(cfg, goals))
    {
      hide SyncGoals, SyncSent;
      if mode.mode == Estop { return; }
      var list: Goals := [];
      for i := 0 to |goals|
        invariant list == SyncList(cfg, goals[..i])
      {
        assert goals[..i + 1][..i] == goals[..i];
        var g := goals[i];
        if g.0 < 1 || g.0 > 12 { continue; }
        if g.0 in cfg.platformOwned { continue; }
        list := list + [(g.0, g.1 % 4096)];
      }
      assert goals[..|goals|] == goals;
      SyncNothing(bus.Regs());
      if list != [] { var _ := bus.SyncWriteGoalPositions(list); }
    }

    method HandleRead(id: nat)
      requires Valid()
      modifies bus.uart, bus.uart.model
      ensures Valid() && State() == Step(cfg, old(State()), ServoRead(id))
    {
      hide WithTorque, ReadStateSpec;
      if id < 1 || id > 12 { return; }
      var st := bus.ReadState(id);
      if st.None? { return; }
      var limit := if id in ceil then ceil[id] else 0;
      if limit > 0 && st.value.current > limit { SetTorque(id, false); }
    }

    // ----- Boot and control loop

    method Discover() returns (present: seq<byte>)
      requires Valid()
      modifies bus.uart, bus.uart.model
      ensures Valid() && State() == old(State()) && present == Discovered(old(bus.Regs()), cfg.busIds)
    {
      present := [];
      for i := 0 to |cfg.busIds|
        invariant Valid() && State() == old(State())
        invariant present == Discovered(old(bus.Regs()), cfg.busIds[..i])
      {
        assert cfg.busIds[..i + 1][..i] == cfg.busIds[..i];
        var ok := bus.Ping(cfg.busIds[i]);
        if ok { present := present + [cfg.busIds[i]]; }
      }
      assert cfg.busIds[..|cfg.busIds|] == cfg.busIds;
    }

    method SelectAux(present: seq<byte>) returns (aux: seq<byte>)
      ensures aux == Aux(cfg, present)
    {
      aux := [];
      for i := 0 to |present|
        invariant aux == Aux(cfg, present[..i])
      {
        assert present[..i + 1][..i] == present[..i];
        if !(cfg.hasDrive && present[i] in WheelIds(cfg.wheels)) { aux := aux + [present[i]]; }
      }
      assert present[..|present|] == present;
    }

    method Start(t: int)
      requires Valid()
      modifies this, drive, bus.uart, bus.uart.model
      ensures Valid() && State() == Step(cfg, old(State()), Boot(t))
    {
      hide EnsureModes, ArmDrive, WithTorques;
      var present := Discover();
      var aux := SelectAux(present);
      EnsureModesOn(present);
      Arm(false);
      SetTorques(aux, false);
      next50, booted := t, true;
    }

    method LoopPass(now: int, tWd: int, tDs: int)
      requires Valid()
      modifies this, mode, wd, ds, drive, bus.uart, bus.uart.model
      ensures Valid() && State() == Step(cfg, old(State()), Pass(now, tWd, tDs))
    {
      hide Transition, WriteWheels, BodyToWheels;
      CheckHeartbeat(tWd);
      if cfg.hasDrive {
        var stale := ds.TickAndCheck(tDs);
        if stale { drive.SetBodyTarget(STOP); }
      }
      if now >= next50 {
        if cfg.hasDrive && drive.armed { WriteCommands(BodyToWheels(cfg.kin, drive.target)); }
        next50 := next50 + TICK_PERIOD;
      }
    }

    method CheckHeartbeat(tWd: int)
      requires Valid()
      modifies mode, wd, drive, bus.uart, bus.uart.model
      ensures Valid() && State() == WatchdogCheck(cfg, old(State()), tWd)
    {
      hide ArmDrive, Halt;
      var lost := wd.TickAndCheck(tWd);
      if lost {
        ghost var was := State().(heartbeatOk := false);
        var changed := mode.OnHeartbeatLost();
        if changed { OnChange(Safe, was); }
        if cfg.hasDrive { drive.SetBodyTarget(STOP); }
      }
    }
  }

  lemma SyncNothing(m: Servos)
    ensures SyncGoals(m, []) == m
  {
  }
}
