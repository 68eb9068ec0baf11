/** What each step of the actuation core may touch, and the invariant that every step keeps. */
module ActuationInvariant {
  import opened Prelude
  import opened ServoFrame
  import opened ServoRegisters
  import opened ServoBus
  import opened DriveKinematics
  import opened Actuation

  // ----- What an operation may touch

  ghost predicate SameServos(m: Servos, m': Servos) {
    m'.Keys == m.Keys && forall id | id in m :: m'[id].present == m[id].present
  }

  predicate SameAt(m: Servos, m': Servos, id: byte, addr: byte, len: nat)
    requires id in m && id in m' && addr as int + len <= REG_COUNT
  {
    m'[id].regs[addr..addr as int + len] == m[id].regs[addr..addr as int + len]
  }

  /** Only servos in `moved` may get a new goal position, time or speed, only those in `torqued` a new TORQUE_ENABLE. */
  ghost predicate Touches(m: Servos, m': Servos, moved: set<byte>, torqued: set<byte>) {
    && SameServos(m, m')
    && (forall id | id in m && id !in moved :: SameAt(m, m', id, GOAL_POSITION, 6))
    && (forall id | id in m && id !in torqued :: SameAt(m, m', id, TORQUE_ENABLE, 1))
  }

  /** GOAL_SPEED is zero. */
  predicate Stopped(m: Servos, id: byte) { id in m && m[id].regs[0x2E] == 0 && m[id].regs[0x2F] == 0 }

  /** TORQUE_ENABLE is zero. */
  predicate Limp(m: Servos, id: byte) { id in m && m[id].regs[0x28] == 0 }

  lemma TouchesKeeps(m: Servos, m': Servos, moved: set<byte>, torqued: set<byte>, id: byte)
    requires Touches(m, m', moved, torqued) && id in m
    ensures id !in moved ==> (Stopped(m', id) <==> Stopped(m, id))
    ensures id !in torqued ==> (Limp(m', id) <==> Limp(m, id))
    ensures Addressable(m', id) <==> Addressable(m, id)
  {
    if id !in moved {
      assert SameAt(m, m', id, GOAL_POSITION, 6);
      assert m'[id].regs[0x2A..0x30][4] == m[id].regs[0x2A..0x30][4]
          && m'[id].regs[0x2A..0x30][5] == m[id].regs[0x2A..0x30][5];
    }
    if id !in torqued {
      assert SameAt(m, m', id, TORQUE_ENABLE, 1);
      assert m'[id].regs[0x28..0x29][0] == m[id].regs[0x28..0x29][0];
    }
  }

  predicate HitsGoal(addr: byte, len: nat) { addr < 0x30 && addr as int + len > 0x2A }

  predicate HitsTorque(addr: byte, len: nat) { addr <= 0x28 && addr as int + len > 0x28 }

  lemma PokeTouches(m: Servos, id: byte, addr: byte, data: seq<byte>)
    ensures Touches(m, Poke(m, id, addr, data), if HitsGoal(addr, |data|) then {id} else {},
                    if HitsTorque(addr, |data|) then {id} else {})
  {
    if Takes(m, id, addr, data) {
      var r, r' := m[id].regs, Poke(m, id, addr, data)[id].regs;
      assert !HitsGoal(addr, |data|) ==> forall a | 0x2A <= a < 0x30 :: r'[a] == r[a];
      assert !HitsGoal(addr, |data|) ==> r'[0x2A..0x30] == r[0x2A..0x30];
      assert !HitsTorque(addr, |data|) ==> r'[0x28] == r[0x28] && r'[0x28..0x29] == r[0x28..0x29];
    }
  }

  lemma TouchesThen(a: Servos, b: Servos, c: Servos, x: set<byte>, t: set<byte>, y: set<byte>, u: set<byte>)
    requires Touches(a, b, x, t) && Touches(b, c, y, u)
    ensures Touches(a, c, x + y, t + u)
    ensures x == {} == y ==> Touches(a, c, {}, t + u)
    ensures t == {} == u ==> Touches(a, c, x + y, {})
    ensures x == {} == y && t == {} == u ==> Touches(a, c, {}, {})
  {
  }

  lemma WriteWheelTouches(cfg: Config, m: Servos, id: byte, radps: real)
    ensures Touches(m, WriteWheel(cfg, m, id, radps), {id}, {})
    ensures radps == 0.0 && Addressable(m, id) && id in cfg.info ==> Stopped(WriteWheel(cfg, m, id, radps), id)
  {
    if id in cfg.info {
      var raw := RawFromRadps(Mounted(cfg.info[id].invert, radps));
      PokeTouches(m, id, GOAL_SPEED, SpeedBytes(raw));
      if radps == 0.0 { assert SpeedBytes(raw) == [0, 0]; }
    }
  }

  lemma TorqueTouches(m: Servos, id: byte, on: bool)
    ensures Touches(m, WithTorque(m, id, on), if on then {id} else {}, {id})
    ensures !on && Addressable(m, id) ==> Limp(WithTorque(m, id, on), id)
  {
    var h := if on then HoldPosition(m, id) else m;
    if on && Addressable(m, id) {
      PokeTouches(m, id, GOAL_POSITION, Peek(m, id, PRESENT_POSITION, 15).value[..2]);
    }
    assert Touches(m, h, if on then {id} else {}, {});
    hide HoldPosition;
    PokeTouches(h, id, TORQUE_ENABLE, FlagByte(on));
    TouchesThen(m, h, WithTorque(m, id, on), if on then {id} else {}, {}, {}, {id});
  }

  lemma {:induction false} TorquesTouch(m: Servos, ids: seq<byte>, on: bool)
    ensures Touches(m, WithTorques(m, ids, on), if on then Ids(ids) else {}, Ids(ids))
    ensures !on ==> forall id | id in ids && Addressable(m, id) :: Limp(WithTorques(m, ids, on), id)
    decreases |ids|
  {
    hide WithTorque;
    if ids != [] {
      var m' := WithTorque(m, ids[0], on);
      TorqueTouches(m, ids[0], on);
      TorquesTouch(m', ids[1..], on);
      hide Touches, Limp;
      assert Ids(ids) == {ids[0]} + Ids(ids[1..]);
      TouchesThen(m, m', WithTorques(m, ids, on), if on then {ids[0]} else {}, {ids[0]},
                  if on then Ids(ids[1..]) else {}, Ids(ids[1..]));
      forall id | !on && id in ids && Addressable(m, id) ensures Limp(WithTorques(m, ids, on), id) {
        TouchesKeeps(m, m', {}, {ids[0]}, id);
        TouchesKeeps(m', WithTorques(m, ids, on), {}, Ids(ids[1..]), id);
      }
    }
  }

  function Ids(s: seq<byte>): set<byte> { set id | id in s }

  lemma WriteWheelsTouch(cfg: Config, m: Servos, v: WheelVel)
    ensures Touches(m, WriteWheels(cfg, m, v), Ids(WheelIds(cfg.wheels)), {})
    ensures v == STILL ==> forall id | id in WheelIds(cfg.wheels) && Addressable(m, id) && id in cfg.info
                           :: Stopped(WriteWheels(cfg, m, v), id)
  {
    hide WriteWheel, Touches, Stopped;
    var w := cfg.wheels;
    var m1 := WriteWheel(cfg, m, w.frontLeft, v.frontLeft);
    var m2 := WriteWheel(cfg, m1, w.frontRight, v.frontRight);
    var m3 := WriteWheel(cfg, m2, w.backLeft, v.backLeft);
    var m4 := WriteWheel(cfg, m3, w.backRight, v.backRight);
    WriteWheelTouches(cfg, m, w.frontLeft, v.frontLeft);
    WriteWheelTouches(cfg, m1, w.frontRight, v.frontRight);
    WriteWheelTouches(cfg, m2, w.backLeft, v.backLeft);
    WriteWheelTouches(cfg, m3, w.backRight, v.backRight);
    TouchesThen(m, m1, m2, {w.frontLeft}, {}, {w.frontRight}, {});
    TouchesThen(m, m2, m3, {w.frontLeft} + {w.frontRight}, {}, {w.backLeft}, {});
    TouchesThen(m, m3, m4, {w.frontLeft} + {w.frontRight} + {w.backLeft}, {}, {w.backRight}, {});
    assert {w.frontLeft} + {w.frontRight} + {w.backLeft} + {w.backRight} == Ids(WheelIds(w));
    forall id | v == STILL && id in WheelIds(w) && Addressable(m, id) && id in cfg.info ensures Stopped(m4, id) {
      TouchesKeeps(m, m1, {w.frontLeft}, {}, id);
      TouchesKeeps(m1, m2, {w.frontRight}, {}, id);
      TouchesKeeps(m2, m3, {w.backLeft}, {}, id);
      TouchesKeeps(m3, m4, {w.backRight}, {}, id);
    }
  }

  lemma {:induction false} HaltTouches(cfg: Config, m: Servos, ids: seq<byte>)
    ensures Touches(m, Halt(cfg, m, ids), Ids(ids), Ids(ids))
    ensures forall id | id in ids && Addressable(m, id) && id in cfg.info
            :: Stopped(Halt(cfg, m, ids), id) && Limp(Halt(cfg, m, ids), id)
    decreases |ids|
  {
    hide WriteWheel, WithTorque;
    if ids != [] {
      var m1 := WriteWheel(cfg, m, ids[0], 0.0);
      var m2 := WithTorque(m1, ids[0], false);
      var last := Halt(cfg, m2, ids[1..]);
      WriteWheelTouches(cfg, m, ids[0], 0.0);
      TorqueTouches(m1, ids[0], false);
      TouchesThen(m, m1, m2, {ids[0]}, {}, {}, {ids[0]});
      HaltTouches(cfg, m2, ids[1..]);
      TouchesThen(m, m2, last, {ids[0]}, {ids[0]}, Ids(ids[1..]), Ids(ids[1..]));
      assert Ids(ids) == {ids[0]} + Ids(ids[1..]);
      forall id | id in ids && Addressable(m, id) && id in cfg.info ensures Stopped(last, id) && Limp(last, id) {
        TouchesKeeps(m, m1, {ids[0]}, {}, id);
        TouchesKeeps(m1, m2, {}, {ids[0]}, id);
        TouchesKeeps(m2, last, Ids(ids[1..]), Ids(ids[1..]), id);
      }
    }
  }

  // ----- Module operations

  lemma LockTouches(m: Servos, id: byte, locked: bool)
    ensures Touches(m, WithLock(m, id, locked), {}, {})
  {
    PokeTouches(m, id, LOCK, FlagByte(locked));
  }

  /** An EEPROM write inside an unlock/relock bracket moves nothing. */
  lemma BracketTouches(m: Servos, id: byte, addr: byte, data: seq<byte>)
    requires addr as int + |data| <= TORQUE_ENABLE as int
    ensures Touches(m, WithLock(Poke(WithLock(m, id, false), id, addr, data), id, true), {}, {})
  {
    hide Poke, Touches;
    var m1 := WithLock(m, id, false);
    var m2 := Poke(m1, id, addr, data);
    LockTouches(m, id, false);
    PokeTouches(m1, id, addr, data);
    LockTouches(m2, id, true);
    TouchesThen(m, m1, m2, {}, {}, {}, {});
    TouchesThen(m, m2, WithLock(m2, id, true), {}, {}, {}, {});
  }

  lemma FieldTouches(p: Progress, id: byte, addr: byte, data: Option<seq<byte>>)
    requires data.Some? ==> !HitsGoal(addr, |data.value|) && !HitsTorque(addr, |data.value|)
    ensures Touches(p.servos, AndThen(p, id, addr, data).servos, {}, {})
  {
    if data.Some? { PokeTouches(p.servos, id, addr, data.value); }
  }

  lemma EepromTouches(m: Servos, id: byte, t: Tuning)
    ensures Touches(m, Eeprom(m, id, t).servos, {}, {})
  {
    hide AndThen, Touches, WithLock;
    var p0 := Progress(WithLock(m, id, false), true);
    var p1 := AndThen(p0, id, RETURN_DELAY, ByteField(t.returnDelay));
    var p2 := AndThen(p1, id, COMP_P, ByteField(t.pCoef));
    var p3 := AndThen(p2, id, COMP_D, ByteField(t.dCoef));
    var p4 := AndThen(p3, id, COMP_I, ByteField(t.iCoef));
    LockTouches(m, id, false);
    FieldTouches(p0, id, RETURN_DELAY, ByteField(t.returnDelay));
    TouchesThen(m, p0.servos, p1.servos, {}, {}, {}, {});
    FieldTouches(p1, id, COMP_P, ByteField(t.pCoef));
    TouchesThen(m, p1.servos, p2.servos, {}, {}, {}, {});
    FieldTouches(p2, id, COMP_D, ByteField(t.dCoef));
    TouchesThen(m, p2.servos, p3.servos, {}, {}, {}, {});
    FieldTouches(p3, id, COMP_I, ByteField(t.iCoef));
    TouchesThen(m, p3.servos, p4.servos, {}, {}, {}, {});
    LockTouches(p4.servos, id, true);
    TouchesThen(m, p4.servos, WithLock(p4.servos, id, true), {}, {}, {}, {});
  }

  lemma TuneTouches(m: Servos, id: byte, t: Tuning)
    ensures Touches(m, Tune(m, id, t).servos, {}, {})
  {
    EepromTouches(m, id, t);
    hide AndThen, Eeprom;
    var p := if AnyEeprom(t) then Eeprom(m, id, t) else Progress(m, true);
    assert Touches(m, p.servos, {}, {});
    hide Touches;
    var q := AndThen(p, id, ACCELERATION, ByteField(t.acceleration));
    FieldTouches(p, id, ACCELERATION, ByteField(t.acceleration));
    FieldTouches(q, id, MAX_ACCELERATION, WordField(t.maxAcceleration));
    TouchesThen(m, p.servos, q.servos, {}, {}, {}, {});
    TouchesThen(m, q.servos, Tune(m, id, t).servos, {}, {}, {}, {});
  }

  lemma TouchesNothing(m: Servos)
    ensures Touches(m, m, {}, {})
  {
  }

  lemma TouchesLess(m: Servos, m': Servos, id: byte)
    ensures Touches(m, m', {}, {}) || Touches(m, m', {id}, {}) || Touches(m, m', {}, {id})
        ==> Touches(m, m', {id}, {id})
  {
  }

  lemma ControlTouches(cfg: Config, s: Core, id: byte, op: ServoOp)
    ensures Touches(s.servos, ControlStep(cfg, s, id, op).servos, {id}, {id})
    ensures ControlStep(cfg, s, id, op).(ceil := s.ceil, servos := s.servos) == s
  {
    hide Poke, WithTorque, WithLock, Tune, Touches, EncodeSignMagnitude, ClampVelocity, Low, High;
    var m := s.servos;
    TouchesNothing(m);
    TouchesLess(m, ControlStep(cfg, s, id, op).servos, id);
    match op
    case OpMode(v) => BracketTouches(m, id, MODE, [v % 256]);
    case OpTorque(on) => TorqueTouches(m, id, on);
    case OpGoalPosition(v) => PokeTouches(m, id, GOAL_POSITION, WordBytes(v % 4096));
    case OpTorqueLimit(v) => PokeTouches(m, id, TORQUE_LIMIT, WordBytes(v % 0x1_0000));
    case OpAngleLimits(lo, hi) => BracketTouches(m, id, MIN_ANGLE_LIMIT, AngleBytes(lo % 0x1_0000, hi % 0x1_0000));
    case OpOvercurrent(v) =>
    case OpGoalSpeed(v) => PokeTouches(m, id, GOAL_SPEED, SpeedBytes(v % 0x8000));
    case OpGoalVelocity(v) => PokeTouches(m, id, GOAL_SPEED, SpeedBytes(ClampVelocity(v)));
    case OpTuning(t) => TuneTouches(m, id, t);
    case OpNone =>
  }

  lemma {:induction false} SyncTouches(m: Servos, goals: Goals)
    ensures Touches(m, SyncGoals(m, goals), set g | g in goals :: g.0, {})
    decreases |goals|
  {
    if goals != [] {
      var g := goals[0];
      var m' := Write(m, g.0, GOAL_POSITION, WordBytes(g.1));
      hide Write;
      WriteTouches(m, g.0, WordBytes(g.1));
      SyncTouches(m', goals[1..]);
      hide Touches;
      TouchesThen(m, m', SyncGoals(m, goals), {g.0}, {}, set g | g in goals[1..] :: g.0, {});
      assert (set g | g in goals :: g.0) == {g.0} + set g | g in goals[1..] :: g.0 by {
        assert goals == [g] + goals[1..];
      }
    }
  }

  lemma WriteTouches(m: Servos, id: byte, data: seq<byte>)
    requires |data| == 2
    ensures Touches(m, Write(m, id, GOAL_POSITION, data), {id}, {})
  {
    if Accepts(m, id, GOAL_POSITION, data) {
      var r, r' := m[id].regs, Write(m, id, GOAL_POSITION, data)[id].regs;
      assert r'[0x28] == r[0x28] && r'[0x28..0x29] == r[0x28..0x29];
    }
  }

  lemma {:induction false} SyncListGated(cfg: Config, goals: seq<(nat, nat)>)
    ensures forall g | g in SyncList(cfg, goals) :: Gated(cfg, g.0)
    decreases |goals|
  {
    if goals != [] { SyncListGated(cfg, goals[..|goals| - 1]); }
  }

  // ----- Operations that only ever take torque away

  /** No goal register of any servo changes, and torque only goes off. */
  ghost predicate Frozen(m: Servos, m': Servos) {
    && SameServos(m, m')
    && (forall id | id in m :: SameAt(m, m', id, GOAL_POSITION, 6))
    && (forall id | id in m :: SameAt(m, m', id, TORQUE_ENABLE, 1) || Limp(m', id))
  }

  lemma FrozenThen(a: Servos, b: Servos, c: Servos)
    requires Frozen(a, b) && Frozen(b, c)
    ensures Frozen(a, c)
  {
    forall id | id in a ensures SameAt(a, c, id, TORQUE_ENABLE, 1) || Limp(c, id) {
      if Limp(b, id) && SameAt(b, c, id, TORQUE_ENABLE, 1) {
        assert c[id].regs[0x28..0x29][0] == b[id].regs[0x28..0x29][0];
      }
    }
  }

  lemma FrozenKeeps(m: Servos, m': Servos, id: byte)
    requires Frozen(m, m') && id in m
    ensures Stopped(m', id) <==> Stopped(m, id)
    ensures Limp(m, id) ==> Limp(m', id)
    ensures Addressable(m', id) <==> Addressable(m, id)
  {
    assert SameAt(m, m', id, GOAL_POSITION, 6);
    assert m'[id].regs[0x2A..0x30][4] == m[id].regs[0x2A..0x30][4]
        && m'[id].regs[0x2A..0x30][5] == m[id].regs[0x2A..0x30][5];
    if SameAt(m, m', id, TORQUE_ENABLE, 1) {
      assert m'[id].regs[0x28..0x29][0] == m[id].regs[0x28..0x29][0];
    }
  }

  lemma TorqueOffFrozen(m: Servos, id: byte)
    ensures Frozen(m, WithTorque(m, id, false))
  {
    TorqueTouches(m, id, false);
  }

  lemma {:induction false} TorquesOffFrozen(m: Servos, ids: seq<byte>)
    ensures Frozen(m, WithTorques(m, ids, false))
    decreases |ids|
  {
    if ids != [] {
      hide Frozen, WithTorque;
      TorqueOffFrozen(m, ids[0]);
      TorquesOffFrozen(WithTorque(m, ids[0], false), ids[1..]);
      FrozenThen(m, WithTorque(m, ids[0], false), WithTorques(m, ids, false));
    }
  }

  lemma UntouchedFrozen(m: Servos, m': Servos)
    requires Touches(m, m', {}, {})
    ensures Frozen(m, m')
  {
  }

  lemma EnsureModeFrozen(cfg: Config, m: Servos, id: byte)
    ensures Frozen(m, EnsureMode(cfg, m, id))
  {
    hide Frozen, Touches, WithTorque, WithLock, Poke;
    TouchesNothing(m);
    UntouchedFrozen(m, m);
    if id in cfg.info {
      var desired: byte := if cfg.info[id].isWheel then 1 else 0;
      var m1 := WithTorque(m, id, false);
      var m2 := WithLock(Poke(WithLock(m1, id, false), id, MODE, [desired]), id, true);
      TorqueOffFrozen(m, id);
      BracketTouches(m1, id, MODE, [desired]);
      UntouchedFrozen(m1, m2);
      FrozenThen(m, m1, m2);
    }
  }

  lemma {:induction false} EnsureModesFrozen(cfg: Config, m: Servos, ids: seq<byte>)
    ensures Frozen(m, EnsureModes(cfg, m, ids))
    decreases |ids|
  {
    if ids != [] {
      hide Frozen, EnsureMode;
      EnsureModeFrozen(cfg, m, ids[0]);
      EnsureModesFrozen(cfg, EnsureMode(cfg, m, ids[0]), ids[1..]);
      FrozenThen(m, EnsureMode(cfg, m, ids[0]), EnsureModes(cfg, m, ids));
    }
  }

  /** Commanding a stopped wheel to stop writes what is already there. */
  lemma StopTwice(cfg: Config, m: Servos, id: byte)
    requires Stopped(m, id)
    ensures WriteWheel(cfg, m, id, 0.0) == m
  {
    if id in cfg.info && Takes(m, id, GOAL_SPEED, [0, 0]) {
      assert SpeedBytes(0) == [0, 0];
      var r := m[id].regs;
      assert Overlay(r, GOAL_SPEED, [0, 0]) == r;
    }
  }

  // ----- The invariant

  function DriveIds(cfg: Config): set<byte> { if cfg.hasDrive then Ids(WheelIds(cfg.wheels)) else {} }

  /** The drive wheels that the module servo gate refuses, by number or by owner. */
  ghost function Sheltered(cfg: Config): set<byte> { set id | id in DriveIds(cfg) && !Gated(cfg, id as int) }

  /** Every wheel that core itself has to stop: the drive wheels and the module wheels. */
  function AllWheels(cfg: Config): set<byte> { DriveIds(cfg) + Ids(cfg.moduleWheels) }

  /** The wheels are known to the driver and answer on the bus. */
  ghost predicate Wired(cfg: Config, m: Servos) {
    forall id | id in AllWheels(cfg) :: Addressable(m, id) && id in cfg.info
  }

  ghost predicate Halted(m: Servos, ids: set<byte>) { forall id | id in ids :: Stopped(m, id) && Limp(m, id) }

  ghost predicate AllStopped(m: Servos, ids: set<byte>) { forall id | id in ids :: Stopped(m, id) }

  ghost predicate Inv(cfg: Config, s: Core) {
    && Wired(cfg, s.servos)
    && (s.armed ==> Actuating(s.mode) && cfg.hasDrive)
    && (Actuating(s.mode) ==> s.heartbeatOk)
    && (s.heartbeatOk <==> s.wd.alive)
    && (s.target != STOP ==> s.ds.alive && Actuating(s.mode) && cfg.hasDrive)
    && (s.mode == Estop ==> Halted(s.servos, AllWheels(cfg)))
    && (s.booted && !s.armed ==> AllStopped(s.servos, Sheltered(cfg)))
  }

  /** Events that can happen in a state; plant motion changes nothing below the PRESENT registers. */
  ghost predicate Enabled(cfg: Config, s: Core, e: Event) {
    match e
    case Boot(_) => !s.booted
    case Pass(_, _, _) => s.booted
    case Plant(m) => SameServos(s.servos, m) && forall id | id in m :: m[id].regs[..0x38] == s.servos[id].regs[..0x38]
    case ServoSync(goals) => |SyncList(cfg, goals)| <= 83
    case _ => true
  }

  lemma WheelsHalt(cfg: Config, m: Servos, ids: seq<byte>)
    requires ids == WheelIds(cfg.wheels) && forall id | id in ids :: Addressable(m, id) && id in cfg.info
    ensures Touches(m, WithTorques(WriteWheels(cfg, m, STILL), ids, false), Ids(ids), Ids(ids))
    ensures Halted(WithTorques(WriteWheels(cfg, m, STILL), ids, false), Ids(ids))
  {
    hide WriteWheels, WithTorques, Touches, Stopped, Limp, Addressable, WheelIds;
    var m1 := WriteWheels(cfg, m, STILL);
    var m2 := WithTorques(m1, ids, false);
    WriteWheelsTouch(cfg, m, STILL);
    TorquesTouch(m1, ids, false);
    TouchesThen(m, m1, m2, Ids(ids), {}, {}, Ids(ids));
    assert Ids(ids) + {} == Ids(ids) == {} + Ids(ids);
    forall id | id in ids ensures Stopped(m2, id) && Limp(m2, id) {
      KnownServo(m, id);
      TouchesKeeps(m, m1, Ids(ids), {}, id);
      KnownServo(m1, id);
      TouchesKeeps(m1, m2, {}, Ids(ids), id);
    }
  }

  lemma KnownServo(m: Servos, id: byte)
    requires Addressable(m, id)
    ensures id in m
  {
  }

  lemma ArmDriveHalts(cfg: Config, s: Core)
    requires Wired(cfg, s.servos)
    ensures Touches(s.servos, ArmDrive(cfg, s, false).servos, DriveIds(cfg), DriveIds(cfg))
    ensures Halted(ArmDrive(cfg, s, false).servos, DriveIds(cfg))
  {
    if cfg.hasDrive {
      hide Touches, WriteWheels, WithTorques;
      WheelsHalt(cfg, s.servos, WheelIds(cfg.wheels));
    }
  }

  lemma ArmDriveArms(cfg: Config, s: Core)
    ensures Touches(s.servos, ArmDrive(cfg, s, true).servos, DriveIds(cfg), DriveIds(cfg))
  {
    if cfg.hasDrive { TorquesTouch(s.servos, WheelIds(cfg.wheels), true); }
  }

  lemma WiredKept(cfg: Config, m: Servos, m': Servos, moved: set<byte>, torqued: set<byte>)
    requires Wired(cfg, m) && Touches(m, m', moved, torqued)
    ensures Wired(cfg, m')
    ensures AllStopped(m, Sheltered(cfg)) && moved !! Sheltered(cfg) ==> AllStopped(m', Sheltered(cfg))
    ensures Halted(m, AllWheels(cfg)) && moved !! AllWheels(cfg) && torqued !! AllWheels(cfg)
        ==> Halted(m', AllWheels(cfg))
  {
    forall id | id in AllWheels(cfg)
      ensures Addressable(m', id)
      ensures id !in moved ==> (Stopped(m', id) <==> Stopped(m, id))
      ensures id !in torqued ==> (Limp(m', id) <==> Limp(m, id))
    {
      assert Addressable(m, id);
      TouchesKeeps(m, m', moved, torqued, id);
    }
  }

  /** Whatever the state was, a real transition leaves all of the invariant true. */
  lemma TransitionEstablishes(cfg: Config, s: Core, to: Mode)
    requires Wired(cfg, s.servos) && to != s.mode
    requires s.heartbeatOk <==> s.wd.alive
    requires Actuating(to) ==> s.heartbeatOk
    requires !cfg.hasDrive ==> s.target == STOP && !s.armed
    ensures Inv(cfg, Transition(cfg, s, to))
    ensures Transition(cfg, s, to).target == STOP
    ensures Transition(cfg, s, to).armed == (Actuating(to) && cfg.hasDrive)
  {
    hide Touches, Stopped, Limp, WriteWheels, WithTorques, Halt, Addressable;
    var s1 := s.(mode := to, target := if cfg.hasDrive then STOP else s.target);
    var s2 := ArmDrive(cfg, s1, Actuating(to));
    ArmDriveHalts(cfg, s1);
    ArmDriveArms(cfg, s1);
    WiredKept(cfg, s.servos, s2.servos, DriveIds(cfg), DriveIds(cfg));
    if to == Estop {
      var ids := cfg.moduleWheels;
      var m := Halt(cfg, s2.servos, ids);
      HaltTouches(cfg, s2.servos, ids);
      WiredKept(cfg, s2.servos, m, Ids(ids), Ids(ids));
      forall id | id in AllWheels(cfg) ensures Stopped(m, id) && Limp(m, id) {
        KnownServo(s2.servos, id);
        TouchesKeeps(s2.servos, m, Ids(ids), Ids(ids), id);
      }
    }
  }

  lemma FrozenInv(cfg: Config, m: Servos, m': Servos)
    requires Wired(cfg, m) && Frozen(m, m')
    ensures Wired(cfg, m')
    ensures AllStopped(m, Sheltered(cfg)) ==> AllStopped(m', Sheltered(cfg))
    ensures Halted(m, AllWheels(cfg)) ==> Halted(m', AllWheels(cfg))
  {
    forall id | id in AllWheels(cfg)
      ensures Addressable(m', id) && (Stopped(m', id) <==> Stopped(m, id)) && (Limp(m, id) ==> Limp(m', id))
    {
      assert Addressable(m, id);
      FrozenKeeps(m, m', id);
    }
  }

  lemma ControlInv(cfg: Config, s: Core, id: byte, op: ServoOp)
    requires Inv(cfg, s) && Gated(cfg, id as int) && s.mode != Estop
    ensures Inv(cfg, ControlStep(cfg, s, id, op))
  {
    ControlTouches(cfg, s, id, op);
    hide ControlStep, Touches;
    WiredKept(cfg, s.servos, ControlStep(cfg, s, id, op).servos, {id}, {id});
  }

  lemma SyncInv(cfg: Config, s: Core, goals: seq<(nat, nat)>)
    requires Inv(cfg, s) && s.mode != Estop
    ensures Inv(cfg, s.(servos := SyncGoals(s.servos, SyncList(cfg, goals))))
  {
    var list := SyncList(cfg, goals);
    SyncListGated(cfg, goals);
    SyncTouches(s.servos, list);
    hide Touches, SyncGoals, SyncList;
    WiredKept(cfg, s.servos, SyncGoals(s.servos, list), set g | g in list :: g.0, {});
  }

  lemma ReadFrozen(cfg: Config, s: Core, id: nat)
    ensures Frozen(s.servos, ReadStep(cfg, s, id).servos)
    ensures ReadStep(cfg, s, id).(servos := s.servos) == s
  {
    assert Frozen(s.servos, s.servos);
    if 1 <= id <= 12 { TorqueOffFrozen(s.servos, id); }
  }

  lemma PlantFrozen(m: Servos, m': Servos)
    requires SameServos(m, m') && forall id | id in m' :: m'[id].regs[..0x38] == m[id].regs[..0x38]
    ensures Frozen(m, m')
  {
    forall id | id in m ensures SameAt(m, m', id, GOAL_POSITION, 6) && SameAt(m, m', id, TORQUE_ENABLE, 1) {
      assert m'[id].regs[0x2A..0x30] == m'[id].regs[..0x38][0x2A..0x30];
      assert m'[id].regs[0x28..0x29] == m'[id].regs[..0x38][0x28..0x29];
      assert m[id].regs[0x2A..0x30] == m[id].regs[..0x38][0x2A..0x30];
      assert m[id].regs[0x28..0x29] == m[id].regs[..0x38][0x28..0x29];
    }
  }

  lemma BootInv(cfg: Config, s: Core, t: int)
    requires Inv(cfg, s)
    ensures Inv(cfg, BootStep(cfg, s, t))
    ensures s.mode == Estop ==> Frozen(s.servos, BootStep(cfg, s, t).servos)
  {
    hide Frozen, Touches, EnsureModes, Discovered, Aux, WithTorques, WriteWheels, Stopped, Limp;
    var present := Discovered(s.servos, cfg.busIds);
    var s1 := s.(servos := EnsureModes(cfg, s.servos, present));
    EnsureModesFrozen(cfg, s.servos, present);
    FrozenInv(cfg, s.servos, s1.servos);
    var s2 := ArmDrive(cfg, s1, false);
    ArmDriveHalts(cfg, s1);
    WiredKept(cfg, s1.servos, s2.servos, DriveIds(cfg), DriveIds(cfg));
    var s3 := BootStep(cfg, s, t);
    TorquesOffFrozen(s2.servos, Aux(cfg, present));
    FrozenInv(cfg, s2.servos, s3.servos);
    assert !s2.armed && (cfg.hasDrive ==> s2.target == STOP);
    if s.mode == Estop {
      ArmDriveFrozen(cfg, s1);
      FrozenThen(s.servos, s1.servos, s2.servos);
      FrozenThen(s.servos, s2.servos, s3.servos);
      FrozenInv(cfg, s.servos, s3.servos);
    }
  }

  lemma ArmDriveFrozen(cfg: Config, s: Core)
    requires Wired(cfg, s.servos) && Halted(s.servos, AllWheels(cfg))
    ensures Frozen(s.servos, ArmDrive(cfg, s, false).servos)
  {
    assert Frozen(s.servos, s.servos);
    if cfg.hasDrive {
      hide Frozen, WithTorques, WriteWheel;
      forall id | id in WheelIds(cfg.wheels) ensures WriteWheel(cfg, s.servos, id, 0.0) == s.servos {
        assert id in AllWheels(cfg);
        StopTwice(cfg, s.servos, id);
      }
      var w := cfg.wheels;
      var ids := WheelIds(w);
      assert w.frontLeft in ids && w.frontRight in ids && w.backLeft in ids && w.backRight in ids;
      assert WriteWheels(cfg, s.servos, STILL) == s.servos;
      TorquesOffFrozen(s.servos, WheelIds(cfg.wheels));
    }
  }

  lemma CheckedInv(cfg: Config, s: Core, e: Event)
    requires Inv(cfg, s) && e.Pass?
    ensures Inv(cfg, Checked(cfg, s, e))
    ensures s.mode == Estop ==> Checked(cfg, s, e).servos == s.servos && Checked(cfg, s, e).mode == Estop
    ensures Checked(cfg, s, e).booted == s.booted
  {
    hide ArmDrive, Halt;
    if Expired(s.wd, e.tWd, HEARTBEAT_TIMEOUT) && Actuating(s.mode) {
      TransitionEstablishes(cfg, s.(wd := s.wd.(alive := false), heartbeatOk := false), Safe);
      TransitionFrame(cfg, s.(wd := s.wd.(alive := false), heartbeatOk := false), Safe);
    }
  }

  /** A transition leaves the timers, the heartbeat flag and the loop's bookkeeping alone. */
  lemma TransitionFrame(cfg: Config, s: Core, to: Mode)
    ensures var s' := Transition(cfg, s, to);
      s' == s.(mode := to, armed := s'.armed, target := s'.target, servos := s'.servos)
  {
  }

  lemma PassInv(cfg: Config, s: Core, e: Event)
    requires ValidConfig(cfg) && Inv(cfg, s) && e.Pass?
    ensures Inv(cfg, PassStep(cfg, s, e))
    ensures s.mode == Estop ==> PassStep(cfg, s, e).servos == s.servos
  {
    hide Checked, Touches, WriteWheels, BodyToWheels, Stopped, Limp, Addressable;
    CheckedInv(cfg, s, e);
    var c := Checked(cfg, s, e);
    if Commanded(cfg, s, e).Some? {
      var v := BodyToWheels(cfg.kin, Commanded(cfg, s, e).value);
      WriteWheelsTouch(cfg, c.servos, v);
      WiredKept(cfg, c.servos, WriteWheels(cfg, c.servos, v), DriveIds(cfg), {});
    }
  }

  lemma InvStep(cfg: Config, s: Core, e: Event)
    requires ValidConfig(cfg) && Inv(cfg, s) && Enabled(cfg, s, e)
    ensures Inv(cfg, Step(cfg, s, e))
  {
    hide Transition, Frozen, ControlStep, ReadStep, BootStep, PassStep, SyncGoals, SyncList;
    match e
    case Heartbeat(_) =>
    case DriveCmd(_, _) =>
    case SetMode(req) =>
      if req.Some? && FromProto(req.value) != s.mode
          && (FromProto(req.value) == Estop || AllowsMode(s, FromProto(req.value))) {
        TransitionEstablishes(cfg, s, FromProto(req.value));
      }
      TransitionToSelf(cfg, s);
    case EstopRpc => if s.mode != Estop { TransitionEstablishes(cfg, s, Estop); } else { TransitionToSelf(cfg, s); }
    case RecoverRpc => if s.mode == Estop { TransitionEstablishes(cfg, s, Safe); }
    case ServoControl(id, op) => if Gated(cfg, id) && s.mode != Estop { ControlInv(cfg, s, id, op); }
    case ServoSync(goals) => if s.mode != Estop { SyncInv(cfg, s, goals); }
    case ServoRead(id) => ReadFrozen(cfg, s, id); FrozenInv(cfg, s.servos, ReadStep(cfg, s, id).servos);
    case Boot(t) => BootInv(cfg, s, t);
    case Pass(_, _, _) => PassInv(cfg, s, e);
    case Plant(m) => PlantFrozen(s.servos, m); FrozenInv(cfg, s.servos, m);
  }

  lemma TransitionToSelf(cfg: Config, s: Core)
    ensures Transition(cfg, s, s.mode) == s
  {
  }
}
