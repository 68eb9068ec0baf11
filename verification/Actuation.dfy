/**
 The actuation core: the mode machine, the heartbeat and drive-command timers, the
 drive controller, the module servo gate, and the handlers and control loop of
 core/src/main.cpp that wire them together. Every handler and every loop pass is
 one atomic step here; times are nanoseconds of the core's clock.
 */
module Actuation {
  import opened Prelude
  import opened ServoFrame
  import opened ServoRegisters
  import opened ServoBus
  import opened DriveKinematics

  const MS := 1_000_000
  const HEARTBEAT_TIMEOUT := 500 * MS
  const DRIVE_TIMEOUT := 300 * MS
  const TICK_PERIOD := 20 * MS

  datatype Mode = Manual | Safe | Estop | Autonomous

  predicate Actuating(m: Mode) { m == Manual || m == Autonomous }

  datatype Wheels = Wheels(frontLeft: byte, frontRight: byte, backLeft: byte, backRight: byte)
  datatype JointInfo = JointInfo(invert: bool, isWheel: bool)

  /** What the platform descriptor contributes; all joints hang on one driver. */
  datatype Config = Config(
    hasDrive: bool, kin: Kinematics, wheels: Wheels, info: map<byte, JointInfo>,
    busIds: seq<byte>, moduleWheels: seq<byte>, platformOwned: set<byte>)

  predicate ValidConfig(cfg: Config) { Physical(cfg.kin) }

  function WheelIds(w: Wheels): seq<byte> { [w.frontLeft, w.frontRight, w.backLeft, w.backRight] }

  datatype Timer = Timer(lastKick: int, alive: bool)

  datatype Core = Core(
    mode: Mode, heartbeatOk: bool, wd: Timer, ds: Timer, armed: bool, target: BodyVel,
    next50: int, booted: bool, ceil: map<int, word>, servos: Servos)

  datatype ServoOp =
    | OpMode(v: nat)
    | OpTorque(on: bool)
    | OpGoalPosition(v: nat)
    | OpTorqueLimit(v: nat)
    | OpAngleLimits(min: nat, max: nat)
    | OpOvercurrent(v: nat)
    | OpGoalSpeed(v: nat)
    | OpGoalVelocity(velocity: int)
    | OpTuning(t: Tuning)
    | OpNone

  datatype Event =
    | Heartbeat(t: int)
    | DriveCmd(t: int, cmd: Option<BodyVel>)
    | SetMode(req: Option<int>)
    | EstopRpc
    | RecoverRpc
    | ServoControl(id: nat, op: ServoOp)
    | ServoSync(goals: seq<(nat, nat)>)
    | ServoRead(id: nat)
    | Boot(t: int)
    | Pass(now: int, tWd: int, tDs: int)
    | Plant(servos: Servos)

  // ----- Writes through the joint driver

  function WriteWheel(cfg: Config, m: Servos, id: byte, radps: real): Servos {
    if id !in cfg.info then m
    else Poke(m, id, GOAL_SPEED, SpeedBytes(RawFromRadps(Mounted(cfg.info[id].invert, radps))))
  }

  function WriteWheels(cfg: Config, m: Servos, v: WheelVel): Servos {
    var m := WriteWheel(cfg, m, cfg.wheels.frontLeft, v.frontLeft);
    var m := WriteWheel(cfg, m, cfg.wheels.frontRight, v.frontRight);
    var m := WriteWheel(cfg, m, cfg.wheels.backLeft, v.backLeft);
    WriteWheel(cfg, m, cfg.wheels.backRight, v.backRight)
  }

  function WithTorque(m: Servos, id: byte, on: bool): Servos {
    if on then Poke(HoldPosition(m, id), id, TORQUE_ENABLE, FlagByte(true))
    else Poke(m, id, TORQUE_ENABLE, FlagByte(false))
  }

  function WithTorques(m: Servos, ids: seq<byte>, on: bool): Servos
    decreases |ids|
  {
    if ids == [] then m else WithTorques(WithTorque(m, ids[0], on), ids[1..], on)
  }

  const STILL := WheelVel(0.0, 0.0, 0.0, 0.0)

  function ArmDrive(cfg: Config, s: Core, on: bool): Core {
    if !cfg.hasDrive then s
    else
      var m := if on then s.servos else WriteWheels(cfg, s.servos, STILL);
      s.(armed := on, target := if on then s.target else STOP,
         servos := WithTorques(m, WheelIds(cfg.wheels), on))
  }

  /** Zero speed, then torque off, servo by servo. */
  function Halt(cfg: Config, m: Servos, ids: seq<byte>): Servos
    decreases |ids|
  {
    if ids == [] then m
    else Halt(cfg, WithTorque(WriteWheel(cfg, m, ids[0], 0.0), ids[0], false), ids[1..])
  }

  // ----- Mode machine

  function Transition(cfg: Config, s: Core, to: Mode): Core {
    if to == s.mode then s
    else
      var s := s.(mode := to, target := if cfg.hasDrive then STOP else s.target);
      var s := ArmDrive(cfg, s, Actuating(to));
      if to == Estop then s.(servos := Halt(cfg, s.servos, cfg.moduleWheels)) else s
  }

  predicate AllowsMode(s: Core, to: Mode) { s.mode != Estop && (Actuating(to) ==> s.heartbeatOk) }

  /** MODE_MANUAL 1, MODE_SAFE 2, MODE_AUTONOMOUS 3, MODE_ESTOP 4; anything else reads as safe. */
  function FromProto(p: int): Mode {
    if p == 1 then Manual else if p == 4 then Estop else if p == 3 then Autonomous else Safe
  }

  function SetModeStep(cfg: Config, s: Core, to: Mode): Core {
    if to == Estop || AllowsMode(s, to) then Transition(cfg, s, to) else s
  }

  // ----- Module servo gate

  predicate Gated(cfg: Config, id: nat) { 1 <= id <= 12 && id !in cfg.platformOwned }

  function ControlStep(cfg: Config, s: Core, id: byte, op: ServoOp): Core {
    var m := s.servos;
    match op
    case OpMode(v) => s.(servos := WithLock(Poke(WithLock(m, id, false), id, MODE, [v % 256]), id, true))
    case OpTorque(on) => s.(servos := WithTorque(m, id, on))
    case OpGoalPosition(v) => s.(servos := Poke(m, id, GOAL_POSITION, WordBytes(v % 4096)))
    case OpTorqueLimit(v) => s.(servos := Poke(m, id, TORQUE_LIMIT, WordBytes(v % 0x1_0000)))
    case OpAngleLimits(lo, hi) => s.(servos := AngleLimits(m, id, lo % 0x1_0000, hi % 0x1_0000))
    case OpOvercurrent(v) => s.(ceil := s.ceil[id as int := v % 0x1_0000])
    case OpGoalSpeed(v) => s.(servos := Poke(m, id, GOAL_SPEED, SpeedBytes(v % 0x8000)))
    case OpGoalVelocity(v) => s.(servos := Poke(m, id, GOAL_SPEED, SpeedBytes(ClampVelocity(v))))
    case OpTuning(t) => s.(servos := Tune(m, id, t).servos)
    case OpNone => s
  }

  function ClampVelocity(v: int): int16 { if v > 32767 then 32767 else if v < -32767 then -32767 else v }

  function SyncList(cfg: Config, goals: seq<(nat, nat)>): Goals {
    if goals == [] then []
    else
      var g := goals[|goals| - 1];
      SyncList(cfg, goals[..|goals| - 1]) + if Gated(cfg, g.0) then [(g.0, g.1 % 4096)] else []
  }

  /** An overcurrent reading drops torque; nothing else comes of a read. */
  function ReadStep(cfg: Config, s: Core, id: nat): Core {
    if !(1 <= id <= 12) then s
    else match ReadStateSpec(s.servos, id)
      case None => s
      case Some(st) =>
        var limit := if id in s.ceil then s.ceil[id] else 0;
        if limit > 0 && st.current > limit then s.(servos := WithTorque(s.servos, id, false)) else s
  }

  // ----- Boot

  function Discovered(m: Servos, ids: seq<byte>): seq<byte> {
    if ids == [] then []
    else Discovered(m, ids[..|ids| - 1]) + if Addressable(m, ids[|ids| - 1]) then [ids[|ids| - 1]] else []
  }

  function EnsureMode(cfg: Config, m: Servos, id: byte): Servos {
    if id !in cfg.info then m
    else
      var desired: byte := if cfg.info[id].isWheel then 1 else 0;
      if Peek(m, id, MODE, 1) == Some([desired]) then m
      else
        var m := WithLock(WithTorque(m, id, false), id, false);
        WithLock(Poke(m, id, MODE, [desired]), id, true)
  }

  function EnsureModes(cfg: Config, m: Servos, ids: seq<byte>): Servos
    decreases |ids|
  {
    if ids == [] then m else EnsureModes(cfg, EnsureMode(cfg, m, ids[0]), ids[1..])
  }

  function Aux(cfg: Config, ids: seq<byte>): seq<byte> {
    if ids == [] then []
    else
      var id := ids[|ids| - 1];
      Aux(cfg, ids[..|ids| - 1]) + if cfg.hasDrive && id in WheelIds(cfg.wheels) then [] else [id]
  }

  function BootStep(cfg: Config, s: Core, t: int): Core {
    var present := Discovered(s.servos, cfg.busIds);
    var s := ArmDrive(cfg, s.(servos := EnsureModes(cfg, s.servos, present)), false);
    s.(servos := WithTorques(s.servos, Aux(cfg, present), false), next50 := t, booted := true)
  }

  // ----- Control loop

  predicate Expired(tm: Timer, now: int, timeout: int) { tm.alive && now - tm.lastKick > timeout }

  function WatchdogCheck(cfg: Config, s: Core, now: int): Core {
    if !Expired(s.wd, now, HEARTBEAT_TIMEOUT) then s
    else
      var s := s.(wd := s.wd.(alive := false), heartbeatOk := false);
      var s := if Actuating(s.mode) then Transition(cfg, s, Safe) else s;
      if cfg.hasDrive then s.(target := STOP) else s
  }

  function StalenessCheck(cfg: Config, s: Core, now: int): Core {
    if cfg.hasDrive && Expired(s.ds, now, DRIVE_TIMEOUT) then s.(ds := s.ds.(alive := false), target := STOP) else s
  }

  /** The pass up to its 50 Hz tick. */
  function Checked(cfg: Config, s: Core, e: Event): Core
    requires e.Pass?
  {
    StalenessCheck(cfg, WatchdogCheck(cfg, s, e.tWd), e.tDs)
  }

  /** The body velocity a pass commands the wheels to, if it commands them at all. */
  function Commanded(cfg: Config, s: Core, e: Event): Option<BodyVel>
    requires e.Pass?
  {
    var c := Checked(cfg, s, e);
    if e.now >= c.next50 && cfg.hasDrive && c.armed then Some(c.target) else None
  }

  function PassStep(cfg: Config, s: Core, e: Event): Core
    requires ValidConfig(cfg) && e.Pass?
  {
    var c := Checked(cfg, s, e);
    var m := match Commanded(cfg, s, e)
      case Some(b) => WriteWheels(cfg, c.servos, BodyToWheels(cfg.kin, b))
      case None => c.servos;
    c.(servos := m, next50 := if e.now >= c.next50 then c.next50 + TICK_PERIOD else c.next50)
  }

  function DriveStep(cfg: Config, s: Core, t: int, cmd: Option<BodyVel>): Core {
    if cfg.hasDrive && Actuating(s.mode) && cmd.Some? then s.(target := cmd.value, ds := Timer(t, true)) else s
  }

  function Step(cfg: Config, s: Core, e: Event): Core
    requires ValidConfig(cfg)
  {
    match e
    case Heartbeat(t) => s.(wd := Timer(t, true), heartbeatOk := true)
    case DriveCmd(t, cmd) => DriveStep(cfg, s, t, cmd)
    case SetMode(req) => if req.Some? then SetModeStep(cfg, s, FromProto(req.value)) else s
    case EstopRpc => Transition(cfg, s, Estop)
    case RecoverRpc => if s.mode == Estop then Transition(cfg, s, Safe) else s
    case ServoControl(id, op) => if Gated(cfg, id) && s.mode != Estop then ControlStep(cfg, s, id, op) else s
    case ServoSync(goals) =>
      if s.mode == Estop then s else s.(servos := SyncGoals(s.servos, SyncList(cfg, goals)))
    case ServoRead(id) => ReadStep(cfg, s, id)
    case Boot(t) => BootStep(cfg, s, t)
    case Pass(_, _, _) => PassStep(cfg, s, e)
    case Plant(m) => s.(servos := m)
  }
}
