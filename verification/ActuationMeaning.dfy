/**
 What each request and each boot leaves behind, register by register and number by
 number: core/src/servo/ServoControlServer.cpp, core/src/rpc/SetModeHandler.cpp and the
 boot sequence of core/src/main.cpp. Addresses are those of the STS3215 register map, mode
 numbers those of protocol/messages/common.proto.
 */
module ActuationMeaning {
  import opened Prelude
  import opened ServoFrame
  import opened ServoRegisters
  import opened ServoBus
  import opened DriveKinematics
  import opened Actuation
  import opened ActuationInvariant
  import opened ActuationRuns

  // ----- Mode requests

  /**
   The mode numbers: 4 is an estop from anywhere; 1 and 3 are Manual and Autonomous,
   accepted exactly outside estop with a heartbeat; every other number asks for Safe.
   Refused and undecodable requests change nothing at all.
   */
  lemma SetModeMeaning(cfg: Config, s: Core, p: int)
    requires ValidConfig(cfg)
    ensures Step(cfg, s, SetMode(Some(4))).mode == Estop
    ensures p == 1 || p == 3 ==>
              var want, s' := if p == 1 then Manual else Autonomous, Step(cfg, s, SetMode(Some(p)));
              if s.mode != Estop && s.heartbeatOk
              then s'.mode == want && (s.mode != want && cfg.hasDrive ==> s'.armed && s'.target == STOP)
              else s' == s
    ensures p != 1 && p != 3 && p != 4 ==>
              var s' := Step(cfg, s, SetMode(Some(p)));
              if s.mode == Estop then s' == s else s'.mode == Safe
    ensures Step(cfg, s, SetMode(None)) == s
  {
    hide ArmDrive, Halt;
    forall to ensures Transition(cfg, s, to).mode == to { TransitionFrame(cfg, s, to); }
    forall to | to != s.mode {
      TransitionArms(cfg, s, to);
    }
    if cfg.hasDrive { forall to | to != s.mode && Actuating(to) { TransitionClears(cfg, s, to); } }
  }

  lemma TransitionClears(cfg: Config, s: Core, to: Mode)
    requires to != s.mode && cfg.hasDrive
    ensures Transition(cfg, s, to).target == STOP
  {
    hide WriteWheels, WithTorques, Halt;
  }

  /** Estop by either route halts every wheel that core has to stop; recover goes to Safe, from estop only. */
  lemma EstopMeaning(cfg: Config, s: Core)
    requires ValidConfig(cfg) && Inv(cfg, s)
    ensures var s' := Step(cfg, s, SetMode(Some(4)));
      s'.mode == Estop && !s'.armed && s'.target == STOP && Halted(s'.servos, AllWheels(cfg))
    ensures Step(cfg, s, EstopRpc) == Step(cfg, s, SetMode(Some(4)))
    ensures var s' := Step(cfg, s, RecoverRpc);
      if s.mode == Estop then s'.mode == Safe && !s'.armed else s' == s
  {
    hide Transition;
    InvStep(cfg, s, SetMode(Some(4)));
    SetModeMeaning(cfg, s, 4);
    if s.mode == Estop { TransitionFrame(cfg, s, Safe); TransitionArms(cfg, s, Safe); }
  }

  // ----- Module requests

  /** The byte at address `a` of a servo after a module's request, from its bytes before. */
  function Controlled(op: ServoOp, r: RegisterFile, a: nat): int
    requires a < 0x50
  {
    match op
    case OpMode(v) => if a == 0x21 then v % 256 else if a == 0x37 then 1 else r[a]
    case OpTorque(on) =>
      if a == 0x28 then (if on then 1 else 0)
      else if on && r[0x21] == 0 && (a == 0x2A || a == 0x2B) then r[a + 0x0E]
      else r[a]
    case OpGoalPosition(v) => if a == 0x2A then v % 256 else if a == 0x2B then v / 256 % 16 else r[a]
    case OpTorqueLimit(v) => if a == 0x30 then v % 256 else if a == 0x31 then v / 256 % 256 else r[a]
    case OpAngleLimits(lo, hi) =>
      if a == 0x09 then lo % 256 else if a == 0x0A then lo / 256 % 256
      else if a == 0x0B then hi % 256 else if a == 0x0C then hi / 256 % 256
      else if a == 0x37 then 1 else r[a]
    case OpOvercurrent(_) => r[a]
    case OpGoalSpeed(v) => if a == 0x2E then v % 256 else if a == 0x2F then v / 256 % 128 else r[a]
    case OpGoalVelocity(v) =>
      var mag := if v > 32767 || v < -32767 then 32767 else if v < 0 then -v else v;
      if a == 0x2E then mag % 256
      else if a == 0x2F then mag / 256 + (if v < 0 then 128 else 0)
      else r[a]
    case OpTuning(t) =>
      if a == 0x07 && t.returnDelay.Some? then t.returnDelay.value
      else if a == 0x15 && t.pCoef.Some? then t.pCoef.value
      else if a == 0x16 && t.dCoef.Some? then t.dCoef.value
      else if a == 0x17 && t.iCoef.Some? then t.iCoef.value
      else if a == 0x29 && t.acceleration.Some? then t.acceleration.value
      else if a == 0x37 && (t.returnDelay.Some? || t.pCoef.Some? || t.dCoef.Some? || t.iCoef.Some?) then 1
      else r[a]
    case OpNone => r[a]
  }

  /** The byte at `a` of servo `other` after request `op` to servo `id`. */
  ghost predicate Obeyed(m: Servos, m': Servos, id: byte, op: ServoOp, other: byte, a: nat)
    requires id in m && other in m && a < 0x50
  {
    other in m'
    && Reg(m', other, a) as int == if other == id then Controlled(op, m[id].regs, a) else Reg(m, other, a) as int
  }

  lemma GoalPositionBytes(v: nat)
    ensures WordBytes(v % 4096)[0] as int == v % 256 && WordBytes(v % 4096)[1] as int == v / 256 % 16
  {
    var l, h, q := v % 256, v / 256 % 16, v / 256 / 16;
    DivModUnique(v, 4096, q, 256 * h + l);
    DivModUnique(256 * h + l, 256, h, l);
  }

  lemma GoalSpeedBytes(v: nat)
    ensures SpeedBytes(v % 0x8000)[0] as int == v % 256 && SpeedBytes(v % 0x8000)[1] as int == v / 256 % 128
  {
    var l, h, q := v % 256, v / 256 % 128, v / 256 / 128;
    DivModUnique(v, 0x8000, q, 256 * h + l);
    DivModUnique(256 * h + l, 256, h, l);
  }

  lemma WordBytesOf(v: nat)
    ensures WordBytes(v % 0x1_0000)[0] as int == v % 256 && WordBytes(v % 0x1_0000)[1] as int == v / 256 % 256
  {
    var l, h, q := v % 256, v / 256 % 256, v / 256 / 256;
    DivModUnique(v, 0x1_0000, q, 256 * h + l);
    DivModUnique(256 * h + l, 256, h, l);
  }

  lemma VelocityBytes(v: int)
    ensures var mag := if v > 32767 || v < -32767 then 32767 else if v < 0 then -v else v;
      var b := SpeedBytes(ClampVelocity(v));
      b[0] as int == mag % 256 && b[1] as int == mag / 256 + (if v < 0 then 128 else 0)
  {
  }

  lemma WrittenByte(m: Servos, id: byte, addr: byte, data: seq<byte>, other: byte, a: nat)
    requires Addressable(m, id) && other in m && a < 0x50 && data != []
    requires addr >= 0x28 && addr as int + |data| <= 0x50
    ensures var m' := Poke(m, id, addr, data);
      && other in m'
      && Reg(m', other, a) == if other == id && addr as int <= a < addr as int + |data| then data[a - addr as int]
                              else Reg(m, other, a)
  {
    PokeFrame(m, id, addr, data, other, a);
  }

  lemma ModeByte(m: Servos, id: byte, v: byte, other: byte, a: nat)
    requires Addressable(m, id) && other in m && a < 0x50
    ensures var m' := WithLock(Poke(WithLock(m, id, false), id, MODE, [v]), id, true);
      && other in m'
      && Reg(m', other, a) == if other == id && a == 0x21 then v else if other == id && a == 0x37 then 1
                              else Reg(m, other, a)
  {
    hide Poke;
    var m1 := WithLock(m, id, false);
    var m2 := Poke(m1, id, MODE, [v]);
    PokeFrame(m, id, LOCK, FlagByte(false), other, a);
    PokeFrame(m, id, LOCK, FlagByte(false), id, LOCK as int);
    PokeFrame(m1, id, MODE, [v], other, a);
    PokeFrame(m2, id, LOCK, FlagByte(true), other, a);
  }

  lemma SpeedByte(m: Servos, id: byte, v: int16, other: byte, a: nat)
    requires Addressable(m, id) && other in m && a < 0x50
    ensures var m', b := Poke(m, id, GOAL_SPEED, SpeedBytes(v)), SpeedBytes(v);
      && other in m'
      && Reg(m', other, a) == if other == id && a == 0x2E then b[0] else if other == id && a == 0x2F then b[1]
                              else Reg(m, other, a)
  {
    hide EncodeSignMagnitude, Low, High, Poke;
    WrittenByte(m, id, GOAL_SPEED, SpeedBytes(v), other, a);
  }

  lemma WordByte(m: Servos, id: byte, addr: byte, w: word, other: byte, a: nat)
    requires Addressable(m, id) && other in m && a < 0x50 && 0x28 <= addr < 0x4F
    ensures var m', b := Poke(m, id, addr, WordBytes(w)), WordBytes(w);
      && other in m'
      && Reg(m', other, a) == if other == id && a == addr as int then b[0]
                              else if other == id && a == addr as int + 1 then b[1] else Reg(m, other, a)
  {
    hide Low, High, Poke;
    WrittenByte(m, id, addr, WordBytes(w), other, a);
  }

  lemma TorqueByte(m: Servos, id: byte, on: bool, other: byte, a: nat)
    requires Addressable(m, id) && other in m && a < 0x50
    ensures Obeyed(m, WithTorque(m, id, on), id, OpTorque(on), other, a)
  {
    if on {
      TorqueHoldsPosition(m, id, other, a);
    } else {
      WrittenByte(m, id, TORQUE_ENABLE, FlagByte(false), other, a);
    }
  }

  lemma AnglesByte(m: Servos, id: byte, lo: nat, hi: nat, other: byte, a: nat)
    requires Addressable(m, id) && other in m && a < 0x50
    ensures Obeyed(m, AngleLimits(m, id, lo % 0x1_0000, hi % 0x1_0000), id, OpAngleLimits(lo, hi), other, a)
  {
    hide AngleLimits, Low, High;
    AngleLimitsMeaning(m, id, lo % 0x1_0000, hi % 0x1_0000, other, a);
    WordBytesOf(lo);
    WordBytesOf(hi);
  }

  lemma ObeysWords(m: Servos, id: byte, v: nat, other: byte, a: nat)
    requires Addressable(m, id) && other in m && a < 0x50
    ensures Obeyed(m, Poke(m, id, GOAL_POSITION, WordBytes(v % 4096)), id, OpGoalPosition(v), other, a)
    ensures Obeyed(m, Poke(m, id, TORQUE_LIMIT, WordBytes(v % 0x1_0000)), id, OpTorqueLimit(v), other, a)
  {
    hide Poke, WordBytes;
    WordByte(m, id, GOAL_POSITION, v % 4096, other, a);
    WordByte(m, id, TORQUE_LIMIT, v % 0x1_0000, other, a);
    GoalPositionBytes(v);
    WordBytesOf(v);
  }

  lemma ObeysSpeeds(m: Servos, id: byte, v: nat, w: int, other: byte, a: nat)
    requires Addressable(m, id) && other in m && a < 0x50
    ensures Obeyed(m, Poke(m, id, GOAL_SPEED, SpeedBytes(v % 0x8000)), id, OpGoalSpeed(v), other, a)
    ensures Obeyed(m, Poke(m, id, GOAL_SPEED, SpeedBytes(ClampVelocity(w))), id, OpGoalVelocity(w), other, a)
  {
    hide Poke, SpeedBytes, ClampVelocity;
    SpeedByte(m, id, v % 0x8000, other, a);
    SpeedByte(m, id, ClampVelocity(w), other, a);
    GoalSpeedBytes(v);
    VelocityBytes(w);
  }

  lemma ObeysMode(m: Servos, id: byte, v: nat, other: byte, a: nat)
    requires Addressable(m, id) && other in m && a < 0x50
    ensures Obeyed(m, WithLock(Poke(WithLock(m, id, false), id, MODE, [v % 256]), id, true), id, OpMode(v), other, a)
  {
    hide Poke, WithLock;
    ModeByte(m, id, v % 256, other, a);
  }

  lemma ObeysTuning(m: Servos, id: byte, t: Tuning, other: byte, a: nat)
    requires Addressable(m, id) && other in m && a < 0x50
    ensures Obeyed(m, Tune(m, id, t).servos, id, OpTuning(t), other, a)
  {
    hide Tune;
    TuningMeaning(m, id, t, other, a);
  }

  lemma Disregarded(m: Servos, id: byte, op: ServoOp, other: byte, a: nat)
    requires id in m && other in m && a < 0x50 && (op.OpNone? || op.OpOvercurrent?)
    ensures Obeyed(m, m, id, op, other, a)
  {
  }

  lemma ControlObeys(cfg: Config, s: Core, id: byte, op: ServoOp, other: byte, a: nat)
    requires Addressable(s.servos, id) && other in s.servos && a < 0x50
    ensures Obeyed(s.servos, ControlStep(cfg, s, id, op).servos, id, op, other, a)
  {
    hide Poke, WithTorque, WithLock, Tune, AngleLimits, SpeedBytes, WordBytes, ClampVelocity, Obeyed;
    var m := s.servos;
    match op
    case OpMode(v) => ObeysMode(m, id, v, other, a);
    case OpTorque(on) => TorqueByte(m, id, on, other, a);
    case OpGoalPosition(v) => ObeysWords(m, id, v, other, a);
    case OpTorqueLimit(v) => ObeysWords(m, id, v, other, a);
    case OpAngleLimits(lo, hi) => AnglesByte(m, id, lo, hi, other, a);
    case OpOvercurrent(v) => Disregarded(m, id, op, other, a);
    case OpGoalSpeed(v) => ObeysSpeeds(m, id, v, 0, other, a);
    case OpGoalVelocity(v) => ObeysSpeeds(m, id, 0, v, other, a);
    case OpTuning(t) => ObeysTuning(m, id, t, other, a);
    case OpNone => Disregarded(m, id, op, other, a);
  }

  lemma ControlCeil(cfg: Config, s: Core, id: byte, op: ServoOp)
    ensures ControlStep(cfg, s, id, op).ceil
         == if op.OpOvercurrent? then s.ceil[id as int := op.v % 0x1_0000] else s.ceil
  {
    hide Poke, WithTorque, WithLock, Tune, AngleLimits, SpeedBytes, WordBytes;
  }

  /**
   Every byte of every servo, and the overcurrent limits, after any request of a module
   that passes the gate; nothing else of the core changes.
   */
  lemma ControlMeaning(cfg: Config, s: Core, id: byte, op: ServoOp, other: byte, a: nat)
    requires ValidConfig(cfg) && Gated(cfg, id as int) && s.mode != Estop
    requires Addressable(s.servos, id) && other in s.servos && a < 0x50
    ensures var s' := Step(cfg, s, ServoControl(id as int, op));
      && s' == s.(servos := s'.servos, ceil := s'.ceil)
      && s'.ceil == (if op.OpOvercurrent? then s.ceil[id as int := op.v % 0x1_0000] else s.ceil)
      && Obeyed(s.servos, s'.servos, id, op, other, a)
  {
    hide ControlStep, Obeyed, Touches;
    ControlTouches(cfg, s, id, op);
    ControlCeil(cfg, s, id, op);
    ControlObeys(cfg, s, id, op, other, a);
  }

  /** Numbers outside 1 to 12, servos of the platform, and every request during estop are refused outright. */
  lemma ControlRefused(cfg: Config, s: Core, id: nat, op: ServoOp)
    requires ValidConfig(cfg)
    requires id < 1 || id > 12 || id in cfg.platformOwned || s.mode == Estop
    ensures Step(cfg, s, ServoControl(id, op)) == s
  {
  }

  // ----- Sync writes

  /** The last goal of a sync write for a servo, to twelve bits, if the gate lets it through. */
  function SyncGoal(cfg: Config, goals: seq<(nat, nat)>, id: nat): Option<int> {
    if goals == [] || !(1 <= id <= 12) || id in cfg.platformOwned then None
    else
      var g := goals[|goals| - 1];
      if g.0 == id then Some(g.1 % 4096) else SyncGoal(cfg, goals[..|goals| - 1], id)
  }

  lemma {:induction false} LastGoalAppend(a: Goals, b: Goals, id: byte)
    ensures LastGoal(a + b, id) == if LastGoal(b, id).Some? then LastGoal(b, id) else LastGoal(a, id)
    decreases |a|
  {
    if a == [] {
      assert a + b == b;
    } else {
      assert (a + b)[1..] == a[1..] + b;
      LastGoalAppend(a[1..], b, id);
    }
  }

  lemma {:induction false} SyncListLast(cfg: Config, goals: seq<(nat, nat)>, id: byte)
    ensures var l, g := LastGoal(SyncList(cfg, goals), id), SyncGoal(cfg, goals, id as int);
      (l.Some? <==> g.Some?) && (l.Some? ==> l.value as int == g.value)
    decreases |goals|
  {
    if goals != [] {
      var n := |goals| - 1;
      var g := goals[n];
      SyncListLast(cfg, goals[..n], id);
      var tail: Goals := if Gated(cfg, g.0) then [(g.0, g.1 % 4096)] else [];
      assert SyncList(cfg, goals) == SyncList(cfg, goals[..n]) + tail;
      LastGoalAppend(SyncList(cfg, goals[..n]), tail, id);
      if tail != [] { assert tail[1..] == []; }
      assert LastGoal([], id) == None;
      if !Gated(cfg, id as int) { NoGoal(cfg, goals[..n], id); }
    }
  }

  lemma NoGoal(cfg: Config, goals: seq<(nat, nat)>, id: byte)
    requires !Gated(cfg, id as int)
    ensures SyncGoal(cfg, goals, id as int) == None
  {
  }

  /** Every byte of every servo after a module's sync write: present servos take their last goal, all else stays. */
  lemma SyncMeaning(cfg: Config, s: Core, goals: seq<(nat, nat)>, id: byte, a: nat)
    requires ValidConfig(cfg) && id in s.servos && a < 0x50
    ensures var s', g := Step(cfg, s, ServoSync(goals)), SyncGoal(cfg, goals, id as int);
      && s' == s.(servos := s'.servos) && id in s'.servos
      && Reg(s'.servos, id, a) as int
         == if s.mode == Estop || !s.servos[id].present || g.None? then Reg(s.servos, id, a) as int
            else if a == 0x2A then g.value % 256 else if a == 0x2B then g.value / 256
            else Reg(s.servos, id, a) as int
  {
    if s.mode != Estop {
      hide SyncGoals, SyncList, SyncGoal;
      SyncGoalsMeaning(s.servos, SyncList(cfg, goals), id, a);
      SyncListLast(cfg, goals, id);
    }
  }

  // ----- Reads

  /**
   A read changes one thing at most: it drops the torque of the servo it is about, exactly
   if a limit was set for it and the current register is above that limit.
   */
  lemma ReadMeaning(cfg: Config, s: Core, id: byte, other: byte, a: nat)
    requires ValidConfig(cfg) && Addressable(s.servos, id) && other in s.servos && a < 0x50
    ensures var s', r := Step(cfg, s, ServoRead(id as int)), s.servos[id].regs;
      var tripped := 1 <= id <= 12 && id as int in s.ceil && 0 < s.ceil[id as int]
                     && r[0x45] as int + 256 * r[0x46] as int > s.ceil[id as int] as int;
      && s' == s.(servos := s'.servos) && other in s'.servos
      && Reg(s'.servos, other, a)
         == if tripped && other == id && a == 0x28 then 0 else Reg(s.servos, other, a)
  {
    var m := s.servos;
    CurrentRead(m, id);
    hide ReadStateSpec, WithTorque;
    TorqueByte(m, id, false, other, a);
  }

  lemma CurrentRead(m: Servos, id: byte)
    requires Addressable(m, id)
    ensures var r := m[id].regs;
      ReadStateSpec(m, id).Some? && ReadStateSpec(m, id).value.current as int == r[0x45] as int + 256 * r[0x46] as int
  {
    hide DecodeSignMagnitude;
    var d := m[id].regs[0x38..0x47];
    assert d[13] == m[id].regs[0x45] && d[14] == m[id].regs[0x46];
  }

  // ----- Arming

  lemma {:induction false} TorquesRaise(m: Servos, ids: seq<byte>, id: byte)
    requires id in ids && Addressable(m, id)
    ensures id in WithTorques(m, ids, true) && WithTorques(m, ids, true)[id].regs[0x28] == 1
    decreases |ids|
  {
    hide WithTorque;
    var m1 := WithTorque(m, ids[0], true);
    TorqueTouches(m, ids[0], true);
    TouchesKeeps(m, m1, {ids[0]}, {ids[0]}, id);
    if id in ids[1..] {
      TorquesRaise(m1, ids[1..], id);
    } else {
      TorqueByte(m, id, true, id, 0x28);
      TorquesTouch(m1, ids[1..], true);
      TorqueStays(m1, WithTorques(m1, ids[1..], true), Ids(ids[1..]), id);
    }
  }

  lemma TorqueStays(m: Servos, m': Servos, ids: set<byte>, id: byte)
    requires Touches(m, m', ids, ids) && id in m && id !in ids
    ensures id in m' && m'[id].regs[0x28] == m[id].regs[0x28]
  {
    assert m'[id].regs[0x28..0x29][0] == m[id].regs[0x28..0x29][0];
  }

  /** Entering an actuating mode raises the torque of all four drive wheels. */
  lemma ArmingRaisesTorque(cfg: Config, s: Core, to: Mode, id: byte)
    requires Wired(cfg, s.servos) && Actuating(to) && to != s.mode && id in DriveIds(cfg)
    ensures var m' := Transition(cfg, s, to).servos; id in m' && m'[id].regs[0x28] == 1
  {
    hide WithTorques;
    assert id in AllWheels(cfg);
    TorquesRaise(s.servos, WheelIds(cfg.wheels), id);
  }

  // ----- Boot

  lemma {:induction false} DiscoveredIff(m: Servos, ids: seq<byte>, id: byte)
    ensures id in Discovered(m, ids) <==> id in ids && Addressable(m, id)
    decreases |ids|
  {
    if ids != [] {
      DiscoveredIff(m, ids[..|ids| - 1], id);
      assert ids == ids[..|ids| - 1] + [ids[|ids| - 1]];
    }
  }

  lemma {:induction false} AuxIff(cfg: Config, ids: seq<byte>, id: byte)
    ensures id in Aux(cfg, ids) <==> id in ids && !(cfg.hasDrive && id in WheelIds(cfg.wheels))
    decreases |ids|
  {
    if ids != [] {
      AuxIff(cfg, ids[..|ids| - 1], id);
      assert ids == ids[..|ids| - 1] + [ids[|ids| - 1]];
    }
  }

  /** Operating mode of every servo kept. */
  ghost predicate SameMode(m: Servos, m': Servos) {
    SameServos(m, m') && forall id | id in m :: m'[id].regs[0x21] == m[id].regs[0x21]
  }

  lemma PokeKeepsMode(m: Servos, id: byte, addr: byte, data: seq<byte>)
    requires addr >= 0x28
    ensures SameMode(m, Poke(m, id, addr, data))
  {
    forall other | other in m ensures Poke(m, id, addr, data)[other].regs[0x21] == m[other].regs[0x21] {
      PokeFrame(m, id, addr, data, other, 0x21);
    }
  }

  lemma TorqueKeepsMode(m: Servos, id: byte, on: bool)
    ensures SameMode(m, WithTorque(m, id, on))
  {
    hide Poke;
    forall m, addr: byte, data | addr >= 0x28 { PokeKeepsMode(m, id, addr, data); }
  }

  lemma {:induction false} TorquesKeepMode(m: Servos, ids: seq<byte>, on: bool)
    ensures SameMode(m, WithTorques(m, ids, on))
    decreases |ids|
  {
    hide WithTorque;
    if ids != [] {
      TorqueKeepsMode(m, ids[0], on);
      TorquesKeepMode(WithTorque(m, ids[0], on), ids[1..], on);
    }
  }

  lemma WheelKeepsMode(cfg: Config, m: Servos, id: byte, radps: real)
    ensures SameMode(m, WriteWheel(cfg, m, id, radps))
  {
    hide Poke;
    if id in cfg.info {
      PokeKeepsMode(m, id, GOAL_SPEED, SpeedBytes(RawFromRadps(Mounted(cfg.info[id].invert, radps))));
    }
  }

  lemma WheelsKeepMode(cfg: Config, m: Servos, v: WheelVel)
    ensures SameMode(m, WriteWheels(cfg, m, v))
  {
    hide WriteWheel;
    var w := cfg.wheels;
    var m1 := WriteWheel(cfg, m, w.frontLeft, v.frontLeft);
    var m2 := WriteWheel(cfg, m1, w.frontRight, v.frontRight);
    var m3 := WriteWheel(cfg, m2, w.backLeft, v.backLeft);
    WheelKeepsMode(cfg, m, w.frontLeft, v.frontLeft);
    WheelKeepsMode(cfg, m1, w.frontRight, v.frontRight);
    WheelKeepsMode(cfg, m2, w.backLeft, v.backLeft);
    WheelKeepsMode(cfg, m3, w.backRight, v.backRight);
  }

  lemma ArmDriveKeepsMode(cfg: Config, s: Core, on: bool)
    ensures SameMode(s.servos, ArmDrive(cfg, s, on).servos)
  {
    hide WriteWheels, WithTorques;
    if cfg.hasDrive {
      WheelsKeepMode(cfg, s.servos, STILL);
      TorquesKeepMode(if on then s.servos else WriteWheels(cfg, s.servos, STILL), WheelIds(cfg.wheels), on);
    }
  }

  /** Mode 1 for wheels and mode 0 for other joints. */
  function ModeOf(j: JointInfo): byte { if j.isWheel then 1 else 0 }

  lemma EnsuredMode(cfg: Config, m: Servos, id: byte, other: byte)
    requires Addressable(m, id) && other in m
    ensures var m' := EnsureMode(cfg, m, id);
      && other in m'
      && m'[other].regs[0x21] == if other == id && id in cfg.info then ModeOf(cfg.info[id]) else m[other].regs[0x21]
  {
    if id in cfg.info {
      hide WithTorque, WithLock, Poke;
      var m1 := WithTorque(m, id, false);
      TorqueKeepsMode(m, id, false);
      ModeByte(m1, id, ModeOf(cfg.info[id]), other, 0x21);
      ModePeek(m, id);
    }
  }

  /** A servo that is in its mode already, or unknown to the driver, is not written at all. */
  lemma EnsuredIdle(cfg: Config, m: Servos, id: byte)
    requires Addressable(m, id) && (id in cfg.info ==> m[id].regs[0x21] == ModeOf(cfg.info[id]))
    ensures EnsureMode(cfg, m, id) == m
  {
    ModePeek(m, id);
  }

  lemma ModePeek(m: Servos, id: byte)
    requires Addressable(m, id)
    ensures Peek(m, id, MODE, 1) == Some([m[id].regs[0x21]])
  {
    assert m[id].regs[0x21..0x22] == [m[id].regs[0x21]];
  }

  lemma {:induction false} EnsuredModes(cfg: Config, m: Servos, ids: seq<byte>, id: byte)
    requires id in m && forall other | other in ids :: Addressable(m, other)
    ensures id in EnsureModes(cfg, m, ids)
    ensures EnsureModes(cfg, m, ids)[id].regs[0x21]
         == if id in ids && id in cfg.info then ModeOf(cfg.info[id]) else m[id].regs[0x21]
    decreases |ids|
  {
    hide EnsureMode, Addressable;
    if ids != [] {
      var m1 := EnsureMode(cfg, m, ids[0]);
      EnsuredMode(cfg, m, ids[0], id);
      EnsureModeFrozen(cfg, m, ids[0]);
      forall other | other in ids[1..] ensures Addressable(m1, other) {
        KnownServo(m, other);
        FrozenKeeps(m, m1, other);
      }
      EnsuredModes(cfg, m1, ids[1..], id);
    }
  }

  /**
   After boot every servo of the descriptor that answers is limp and, if the driver
   knows its joint, in the operating mode of that joint; all drive wheels are stopped.
   */
  lemma BootMeaning(cfg: Config, s: Core, t: int, id: byte)
    requires ValidConfig(cfg) && Inv(cfg, s) && id in cfg.busIds && Addressable(s.servos, id)
    ensures var m' := Step(cfg, s, Boot(t)).servos;
      && id in m' && m'[id].regs[0x28] == 0
      && (id in cfg.info ==> m'[id].regs[0x21] == ModeOf(cfg.info[id]))
      && (id in DriveIds(cfg) ==> m'[id].regs[0x2E] == 0 && m'[id].regs[0x2F] == 0)
    ensures Step(cfg, s, Boot(t)).booted && Step(cfg, s, Boot(t)).next50 == t && !Step(cfg, s, Boot(t)).armed
  {
    hide EnsureModes, Discovered, Aux, WithTorques, WriteWheels, Frozen, Touches, Addressable;
    var present := Discovered(s.servos, cfg.busIds);
    DiscoveredIff(s.servos, cfg.busIds, id);
    forall other | other in present ensures Addressable(s.servos, other) { DiscoveredIff(s.servos, cfg.busIds, other); }
    var s1 := s.(servos := EnsureModes(cfg, s.servos, present));
    KnownServo(s.servos, id);
    EnsuredModes(cfg, s.servos, present, id);
    EnsureModesFrozen(cfg, s.servos, present);
    FrozenInv(cfg, s.servos, s1.servos);
    FrozenKeeps(s.servos, s1.servos, id);
    var s2 := ArmDrive(cfg, s1, false);
    ArmDriveKeepsMode(cfg, s1, false);
    ArmDriveHalts(cfg, s1);
    TouchesKeeps(s1.servos, s2.servos, DriveIds(cfg), DriveIds(cfg), id);
    AuxIff(cfg, present, id);
    KnownServo(s2.servos, id);
    TorquesOffFrozen(s2.servos, Aux(cfg, present));
    TorquesKeepMode(s2.servos, Aux(cfg, present), false);
    var m3 := WithTorques(s2.servos, Aux(cfg, present), false);
    FrozenKeeps(s2.servos, m3, id);
    TorquesTouch(s2.servos, Aux(cfg, present), false);
  }

  // ----- Cadence

  /** The tick is due every 20 ms, counted from boot, whether or not it moves a wheel. */
  lemma CadenceMeaning(cfg: Config, s: Core, e: Event)
    requires ValidConfig(cfg) && e.Pass?
    ensures Step(cfg, s, e).next50 == if e.now >= s.next50 then s.next50 + 20_000_000 else s.next50
  {
    hide Transition, WriteWheels, BodyToWheels;
    TransitionFrame(cfg, s.(wd := s.wd.(alive := false), heartbeatOk := false), Safe);
  }
}
