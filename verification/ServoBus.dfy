/**
 The servo bus over the simulated UART: core/src/servo/Sts3215Bus.cpp. Each bus
 operation is proved to be direct access to the register file, with nothing left
 in either byte buffer.
 */
module ServoBus {
  import opened Prelude
  import opened ServoFrame
  import opened ServoRegisters
  import opened SimUart

  // ----- Operations as direct register access

  function WordBytes(w: word): seq<byte> { [Low(w), High(w)] }

  function WriteCmd(id: byte, addr: byte, data: seq<byte>): Frame { Frame(id, WRITE_DATA, [addr] + data) }

  function ReadCmd(id: byte, addr: byte, len: byte): Frame { Frame(id, READ_DATA, [addr, len]) }

  /** The servo at `id` takes the write; the broadcast address takes none. */
  predicate Takes(m: Servos, id: byte, addr: byte, data: seq<byte>) {
    id != BROADCAST && Accepts(m, id, addr, data)
  }

  function Poke(m: Servos, id: byte, addr: byte, data: seq<byte>): Servos {
    if id == BROADCAST then m else Write(m, id, addr, data)
  }

  function Peek(m: Servos, id: byte, addr: byte, len: byte): Option<seq<byte>> {
    if id == BROADCAST then None else Read(m, id, addr, len)
  }

  function SpeedBytes(v: int16): seq<byte> { WordBytes(EncodeSignMagnitude(v)) }

  function FlagByte(b: bool): seq<byte> { [if b then 1 else 0] }

  function WithLock(m: Servos, id: byte, locked: bool): Servos { Poke(m, id, LOCK, FlagByte(locked)) }

  function AngleBytes(min: word, max: word): seq<byte> { WordBytes(min) + WordBytes(max) }

  function AngleLimits(m: Servos, id: byte, min: word, max: word): Servos {
    WithLock(Poke(WithLock(m, id, false), id, MIN_ANGLE_LIMIT, AngleBytes(min, max)), id, true)
  }

  datatype Tuning = Tuning(pCoef: Option<byte>, iCoef: Option<byte>, dCoef: Option<byte>,
                           acceleration: Option<byte>, returnDelay: Option<byte>, maxAcceleration: Option<word>)

  /** A register file and whether every checked write so far was taken. */
  datatype Progress = Progress(servos: Servos, ok: bool)

  function AndThen(p: Progress, id: byte, addr: byte, data: Option<seq<byte>>): Progress {
    match data
    case None => p
    case Some(d) => Progress(Poke(p.servos, id, addr, d), p.ok && Takes(p.servos, id, addr, d))
  }

  function ByteField(o: Option<byte>): Option<seq<byte>> { if o.Some? then Some([o.value]) else None }

  function WordField(o: Option<word>): Option<seq<byte>> { if o.Some? then Some(WordBytes(o.value)) else None }

  predicate AnyEeprom(t: Tuning) { t.returnDelay.Some? || t.pCoef.Some? || t.dCoef.Some? || t.iCoef.Some? }

  function Eeprom(m: Servos, id: byte, t: Tuning): Progress {
    var p := Progress(WithLock(m, id, false), true);
    var p := AndThen(p, id, RETURN_DELAY, ByteField(t.returnDelay));
    var p := AndThen(p, id, COMP_P, ByteField(t.pCoef));
    var p := AndThen(p, id, COMP_D, ByteField(t.dCoef));
    var p := AndThen(p, id, COMP_I, ByteField(t.iCoef));
    Progress(WithLock(p.servos, id, true), p.ok)
  }

  function Tune(m: Servos, id: byte, t: Tuning): Progress {
    var p := if AnyEeprom(t) then Eeprom(m, id, t) else Progress(m, true);
    var p := AndThen(p, id, ACCELERATION, ByteField(t.acceleration));
    AndThen(p, id, MAX_ACCELERATION, WordField(t.maxAcceleration))
  }

  /** Position-mode servos get their present position as goal before torque comes on. */
  function HoldPosition(m: Servos, id: byte): Servos {
    match Peek(m, id, MODE, 1)
    case Some(mode) =>
      if mode[0] == 0 then Poke(m, id, GOAL_POSITION, Peek(m, id, PRESENT_POSITION, 15).value[..2]) else m
    case None => m
  }

  type Goals = seq<(byte, word)>

  function SyncGoals(m: Servos, goals: Goals): Servos
    decreases |goals|
  {
    if goals == [] then m
    else SyncGoals(Write(m, goals[0].0, GOAL_POSITION, WordBytes(goals[0].1)), goals[1..])
  }

  function GoalBytes(goals: Goals): seq<byte> {
    if goals == [] then []
    else GoalBytes(goals[..|goals| - 1]) + [goals[|goals| - 1].0] + WordBytes(goals[|goals| - 1].1)
  }

  function SyncCmd(goals: Goals): Frame { Frame(BROADCAST, SYNC_WRITE, [GOAL_POSITION, 2] + GoalBytes(goals)) }

  datatype ServoState = ServoState(position: word, speed: int16, load: int16, voltageDeci: byte,
                                   temperatureC: byte, current: word)

  function StateOf(d: seq<byte>): ServoState
    requires |d| >= 15
  {
    ServoState(Word(d[0], d[1]), DecodeSignMagnitude(Word(d[2], d[3]), SPEED_SIGN),
               DecodeSignMagnitude(Word(d[4], d[5]), LOAD_SIGN), d[6], d[7], Word(d[13], d[14]))
  }

  function ReadStateSpec(m: Servos, id: byte): Option<ServoState> {
    match Peek(m, id, PRESENT_POSITION, 15)
    case Some(d) => Some(StateOf(d))
    case None => None
  }

  /** The line after a sync write, whatever the receiver made of its frame. */
  function SyncSent(u: Uart, goals: Goals): Uart {
    if goals == [] then u else Written(u.(txMode := true), Encode(SyncCmd(goals))).(txMode := false)
  }

  // ----- The bus

  /** Replies that fit one read of the bus's 64-byte scratch buffer. */
  const ONE_READ := 58

  class Sts3215Bus {
    const uart: SimUart

    constructor (uart: SimUart)
      ensures this.uart == uart
    {
      this.uart := uart;
    }

    ghost predicate Quiet()
      reads uart
    {
      uart.txAccum == [] && uart.rx == []
    }

    ghost function Regs(): Servos
      reads uart, uart.model
    {
      uart.model.servos
    }

    /**
     One request and its reply. The wall-clock check of the read loop is taken to fire
     after `turns` reads; a reply cut off by it stays on the line from there on.
     */
    method Exchange(f: Frame, turns: nat) returns (r: Option<seq<byte>>)
      requires Quiet() && |f.params| <= MAX_PARAMS && turns >= 1
      modifies uart, uart.model
      ensures Regs() == Effect(old(Regs()), f) && uart.txAccum == []
      ensures Reply(old(Regs()), f).None? ==> r.None? && Quiet()
      ensures Reply(old(Regs()), f).Some? ==>
                var v := Reply(old(Regs()), f).value;
                if |v| + 6 <= 64 * turns then r == Some([0] + v) && Quiet()
                else r.None? && 64 * turns <= |Status(f.id, v)| && uart.rx == Status(f.id, v)[64 * turns..]
    {
      hide Encode, Effect, Reply, CutFrames;
      uart.SetHalfDuplexDirection(true);
      ghost var u := uart.State();
      var req := Encode(f);
      WrittenFrame(u, f);
      var n := uart.Write(req);
      if n < |req| { return None; }
      uart.SetHalfDuplexDirection(false);

      ghost var reply := Reply(u.servos, f);
      ghost var status := if reply.Some? then Status(f.id, reply.value) else [];
      assert uart.rx == status;
      if reply.Some? {
        ReplySize(u.servos, f);
        StatusDecodes(f.id, reply.value, 0);
      }
      r := Collect(f.id, reply, turns);
    }

    /** The accumulate-and-decode loop of an exchange, with the whole reply already queued. */
    method Collect(ghost id: byte, ghost reply: Option<seq<byte>>, turns: nat) returns (r: Option<seq<byte>>)
      requires reply.Some? ==> |reply.value| <= REG_COUNT && uart.rx == Status(id, reply.value)
      requires reply.None? ==> uart.rx == []
      requires turns >= 1
      modifies uart
      ensures uart.txAccum == old(uart.txAccum) && uart.malformed == old(uart.malformed)
      ensures reply.None? ==> r.None? && uart.rx == []
      ensures reply.Some? ==>
                if |reply.value| + 6 <= 64 * turns then r == Some([0] + reply.value) && uart.rx == []
                else r.None? && 64 * turns <= |old(uart.rx)| && uart.rx == old(uart.rx)[64 * turns..]
    {
      hide Decode, Status;
      if reply.Some? { StatusDecodes(id, reply.value, 0); }
      ghost var status := uart.rx;
      var resp: seq<byte> := [];
      var k := 0;
      while true
        invariant uart.txAccum == old(uart.txAccum) && uart.malformed == old(uart.malformed)
        invariant k < turns && resp + uart.rx == status
        invariant reply.Some? ==> 64 * k < |status| && |resp| == 64 * k
        decreases |uart.rx|
      {
        ghost var before := uart.rx;
        var chunk := uart.Read(64);
        if |chunk| <= 0 { return None; }
        Arrived(resp, before, |chunk|, status);
        resp := resp + chunk;
        PrefixDecodes(id, reply.value, resp, status);
        var dr := Decode(resp);
        if dr.Some? {
          r := Some(resp[4..dr.value.consumed - 1]);
          return;
        }
        k := k + 1;
        if k >= turns { return None; }
      }
    }

    // ----- Single exchanges

    method WriteTo(id: byte, addr: byte, data: seq<byte>) returns (ok: bool)
      requires Quiet() && |data| < MAX_PARAMS
      modifies uart, uart.model
      ensures Quiet() && Regs() == Poke(old(Regs()), id, addr, data) && ok == Takes(old(Regs()), id, addr, data)
    {
      assert ([addr] + data)[1..] == data;
      var r := Exchange(WriteCmd(id, addr, data), 1);
      ok := r.Some?;
    }

    method ReadFrom(id: byte, addr: byte, len: byte) returns (r: Option<seq<byte>>)
      requires Quiet() && len as int <= ONE_READ
      modifies uart, uart.model
      ensures Quiet() && Regs() == old(Regs()) && r == Peek(old(Regs()), id, addr, len)
    {
      var resp := Exchange(ReadCmd(id, addr, len), 1);
      r := if resp.Some? then Some(resp.value[1..]) else None;
    }

    method Ping(id: byte) returns (ok: bool)
      requires Quiet()
      modifies uart, uart.model
      ensures Quiet() && Regs() == old(Regs()) && ok == (id != BROADCAST && Present(old(Regs()), id))
    {
      var r := Exchange(Frame(id, PING, []), 1);
      ok := r.Some?;
    }

    method ReadState(id: byte) returns (r: Option<ServoState>)
      requires Quiet()
      modifies uart, uart.model
      ensures Quiet() && Regs() == old(Regs()) && r == ReadStateSpec(old(Regs()), id)
    {
      var d := ReadFrom(id, PRESENT_POSITION, 15);
      if d.None? || |d.value| < 15 { return None; }
      r := Some(StateOf(d.value));
    }

    method SetGoalSpeed(id: byte, speed: int16) returns (ok: bool)
      requires Quiet()
      modifies uart, uart.model
      ensures Quiet() && Regs() == Poke(old(Regs()), id, GOAL_SPEED, SpeedBytes(speed))
      ensures ok == Takes(old(Regs()), id, GOAL_SPEED, SpeedBytes(speed))
    {
      ok := WriteTo(id, GOAL_SPEED, SpeedBytes(speed));
    }

    method SetTorqueEnable(id: byte, on: bool) returns (ok: bool)
      requires Quiet()
      modifies uart, uart.model
      ensures Quiet() && Regs() == Poke(old(Regs()), id, TORQUE_ENABLE, FlagByte(on))
      ensures ok == Takes(old(Regs()), id, TORQUE_ENABLE, FlagByte(on))
    {
      ok := WriteTo(id, TORQUE_ENABLE, FlagByte(on));
    }

    method ReadOperatingMode(id: byte) returns (r: Option<byte>)
      requires Quiet()
      modifies uart, uart.model
      ensures Quiet() && Regs() == old(Regs()) && r.Some? == Peek(old(Regs()), id, MODE, 1).Some?
      ensures r.Some? ==> Peek(old(Regs()), id, MODE, 1) == Some([r.value])
    {
      var d := ReadFrom(id, MODE, 1);
      assert d.Some? ==> d.value == [d.value[0]];
      r := if d.None? || |d.value| < 1 then None else Some(d.value[0]);
    }

    method SetOperatingMode(id: byte, mode: byte) returns (ok: bool)
      requires Quiet()
      modifies uart, uart.model
      ensures Quiet() && Regs() == Poke(old(Regs()), id, MODE, [mode]) && ok == Takes(old(Regs()), id, MODE, [mode])
    {
      ok := WriteTo(id, MODE, [mode]);
    }

    method SetEepromLock(id: byte, locked: bool) returns (ok: bool)
      requires Quiet()
      modifies uart, uart.model
      ensures Quiet() && Regs() == WithLock(old(Regs()), id, locked)
      ensures ok == Takes(old(Regs()), id, LOCK, FlagByte(locked))
    {
      ok := WriteTo(id, LOCK, FlagByte(locked));
    }

    method SetGoalPosition(id: byte, raw: word) returns (ok: bool)
      requires Quiet()
      modifies uart, uart.model
      ensures Quiet() && Regs() == Poke(old(Regs()), id, GOAL_POSITION, WordBytes(raw))
      ensures ok == Takes(old(Regs()), id, GOAL_POSITION, WordBytes(raw))
    {
      ok := WriteTo(id, GOAL_POSITION, WordBytes(raw));
    }

    method SetTorqueLimit(id: byte, raw: word) returns (ok: bool)
      requires Quiet()
      modifies uart, uart.model
      ensures Quiet() && Regs() == Poke(old(Regs()), id, TORQUE_LIMIT, WordBytes(raw))
      ensures ok == Takes(old(Regs()), id, TORQUE_LIMIT, WordBytes(raw))
    {
      ok := WriteTo(id, TORQUE_LIMIT, WordBytes(raw));
    }

    // ----- Several exchanges under one lock

    method SetAngleLimits(id: byte, min: word, max: word) returns (ok: bool)
      requires Quiet()
      modifies uart, uart.model
      ensures Quiet() && Regs() == AngleLimits(old(Regs()), id, min, max)
      ensures ok == Takes(WithLock(old(Regs()), id, false), id, MIN_ANGLE_LIMIT, AngleBytes(min, max))
    {
      hide Poke, Takes;
      var _ := WriteTo(id, LOCK, FlagByte(false));
      ok := WriteTo(id, MIN_ANGLE_LIMIT, AngleBytes(min, max));
      var _ := WriteTo(id, LOCK, FlagByte(true));
    }

    /** Writes a field if it is set, and folds the outcome into `sofar`. */
    method WriteField(id: byte, addr: byte, data: Option<seq<byte>>, sofar: bool) returns (ok: bool)
      requires Quiet() && (data.Some? ==> |data.value| < MAX_PARAMS)
      modifies uart, uart.model
      ensures Quiet() && Progress(Regs(), ok) == AndThen(Progress(old(Regs()), sofar), id, addr, data)
    {
      ok := sofar;
      if data.Some? {
        var taken := WriteTo(id, addr, data.value);
        ok := ok && taken;
      }
    }

    method SetTuning(id: byte, t: Tuning) returns (ok: bool)
      requires Quiet()
      modifies uart, uart.model
      ensures Quiet() && Progress(Regs(), ok) == Tune(old(Regs()), id, t)
    {
      hide Poke, Takes, AndThen;
      ok := true;
      if AnyEeprom(t) {
        var _ := WriteTo(id, LOCK, FlagByte(false));
        ok := WriteField(id, RETURN_DELAY, ByteField(t.returnDelay), ok);
        ok := WriteField(id, COMP_P, ByteField(t.pCoef), ok);
        ok := WriteField(id, COMP_D, ByteField(t.dCoef), ok);
        ok := WriteField(id, COMP_I, ByteField(t.iCoef), ok);
        var _ := WriteTo(id, LOCK, FlagByte(true));
      }
      ok := WriteField(id, ACCELERATION, ByteField(t.acceleration), ok);
      ok := WriteField(id, MAX_ACCELERATION, WordField(t.maxAcceleration), ok);
    }

    method EnableTorqueHoldingPosition(id: byte) returns (ok: bool)
      requires Quiet()
      modifies uart, uart.model
      ensures Quiet() && Regs() == Poke(HoldPosition(old(Regs()), id), id, TORQUE_ENABLE, FlagByte(true))
      ensures ok == Takes(HoldPosition(old(Regs()), id), id, TORQUE_ENABLE, FlagByte(true))
    {
      var mode := ReadFrom(id, MODE, 1);
      var position := mode.Some? && |mode.value| >= 1 && mode.value[0] == 0;
      if position {
        var st := ReadFrom(id, PRESENT_POSITION, 15);
        if st.Some? && |st.value| >= 15 {
          var pos := Word(st.value[0], st.value[1]);
          assert WordBytes(pos) == st.value[..2];
          var _ := WriteTo(id, GOAL_POSITION, WordBytes(pos));
        }
      }
      ok := WriteTo(id, TORQUE_ENABLE, FlagByte(true));
    }

    /** Up to 83 goals fit one frame; the bus reports success for any number. */
    method SyncWriteGoalPositions(goals: Goals) returns (ok: bool)
      requires Quiet()
      modifies uart, uart.model
      ensures ok
      ensures |goals| <= 83 ==> Quiet() && Regs() == SyncGoals(old(Regs()), goals)
      ensures uart.State() == SyncSent(old(uart.State()), goals)
    {
      if |goals| == 0 { return true; }
      var req := BuildSyncWriteGoalPositions(goals);
      uart.SetHalfDuplexDirection(true);
      ghost var u := uart.State();
      var n := uart.Write(req);
      ok := n >= |req|;
      uart.SetHalfDuplexDirection(false);
      if |goals| <= 83 {
        GoalBytesSize(goals);
        WrittenFrame(u, SyncCmd(goals));
        SyncRefines(u.servos, goals);
      }
    }
  }

  method BuildSyncWriteGoalPositions(goals: Goals) returns (out: seq<byte>)
    ensures out == Encode(SyncCmd(goals))
  {
    var len := (3 * |goals| + 4) % 256;
    var params: seq<byte> := [GOAL_POSITION, 2];
    for i := 0 to |goals|
      invariant params == [GOAL_POSITION, 2] + GoalBytes(goals[..i])
    {
      assert goals[..i + 1][..i] == goals[..i];
      params := params + [goals[i].0] + [Low(goals[i].1)] + [High(goals[i].1)];
    }
    assert goals[..|goals|] == goals;
    GoalBytesSize(goals);
    var cs := ComputeChecksum(BROADCAST, len, SYNC_WRITE, params);
    out := [0xFF, 0xFF, BROADCAST, len, SYNC_WRITE] + params + [cs];
  }

  lemma {:induction false} GoalBytesSize(goals: Goals)
    ensures |GoalBytes(goals)| == 3 * |goals|
    decreases |goals|
  {
    if goals != [] { GoalBytesSize(goals[..|goals| - 1]); }
  }

  lemma {:induction false} GoalBytesFront(goals: Goals)
    requires goals != []
    ensures GoalBytes(goals) == [goals[0].0] + WordBytes(goals[0].1) + GoalBytes(goals[1..])
    decreases |goals|
  {
    var n := |goals| - 1;
    if n > 0 {
      GoalBytesFront(goals[..n]);
      assert goals[..n][1..] == goals[1..][..n - 1];
    }
  }

  lemma {:induction false} SyncGroups(m: Servos, goals: Goals)
    ensures SyncEffect(m, GOAL_POSITION, 2, GoalBytes(goals)) == SyncGoals(m, goals)
    decreases |goals|
  {
    if goals != [] {
      var d := GoalBytes(goals);
      GoalBytesFront(goals);
      assert d[1..3] == WordBytes(goals[0].1) && d[3..] == GoalBytes(goals[1..]);
      SyncGroups(Write(m, goals[0].0, GOAL_POSITION, WordBytes(goals[0].1)), goals[1..]);
    }
  }

  lemma SyncRefines(m: Servos, goals: Goals)
    ensures Effect(m, SyncCmd(goals)) == SyncGoals(m, goals)
  {
    assert SyncCmd(goals).params[2..] == GoalBytes(goals);
    SyncGroups(m, goals);
  }

  /** Exactly the goal lists of at most 83 entries survive the one-byte length. */
  lemma SyncFitsIff(goals: Goals)
    ensures TryParse(Encode(SyncCmd(goals))) == Some(Parsed(SyncCmd(goals), |Encode(SyncCmd(goals))|))
        <==> |goals| <= 83
  {
    GoalBytesSize(goals);
    RoundTripIff(SyncCmd(goals));
  }

  // ----- What the composite operations mean register by register

  predicate Addressable(m: Servos, id: byte) { id != BROADCAST && Present(m, id) }

  lemma PokeFrame(m: Servos, id: byte, addr: byte, data: seq<byte>, other: byte, a: nat)
    requires other in m && a < REG_COUNT
    ensures other in Poke(m, id, addr, data) && Poke(m, id, addr, data)[other].present == m[other].present
    ensures Reg(Poke(m, id, addr, data), other, a)
         == if Takes(m, id, addr, data) && other == id && addr as int <= a < addr as int + |data|
            then data[a - addr as int] else Reg(m, other, a)
  {
    WriteFrame(m, id, addr, data, other, a);
  }

  /**
   Angle limits on a servo that answers: its four limit bytes are set, it ends
   locked, and no other register of any servo changes, whatever LOCK was before.
   */
  lemma AngleLimitsMeaning(m: Servos, id: byte, min: word, max: word, other: byte, a: nat)
    requires Addressable(m, id) && other in m && a < REG_COUNT
    ensures Takes(WithLock(m, id, false), id, MIN_ANGLE_LIMIT, AngleBytes(min, max))
    ensures other in AngleLimits(m, id, min, max)
    ensures Reg(AngleLimits(m, id, min, max), other, a)
         == if other == id && 9 <= a < 13 then AngleBytes(min, max)[a - 9]
            else if other == id && a == LOCK as int then 1
            else Reg(m, other, a)
  {
    hide Poke;
    var m1 := WithLock(m, id, false);
    var m2 := Poke(m1, id, MIN_ANGLE_LIMIT, AngleBytes(min, max));
    PokeFrame(m, id, LOCK, FlagByte(false), other, a);
    PokeFrame(m, id, LOCK, FlagByte(false), id, LOCK as int);
    PokeFrame(m1, id, MIN_ANGLE_LIMIT, AngleBytes(min, max), other, a);
    PokeFrame(m1, id, MIN_ANGLE_LIMIT, AngleBytes(min, max), id, LOCK as int);
    PokeFrame(m2, id, LOCK, FlagByte(true), other, a);
  }

  /** The register a tuning leaves behind. */
  function TunedReg(t: Tuning, a: nat, before: byte): byte {
    if a == RETURN_DELAY as int && t.returnDelay.Some? then t.returnDelay.value
    else if a == COMP_P as int && t.pCoef.Some? then t.pCoef.value
    else if a == COMP_D as int && t.dCoef.Some? then t.dCoef.value
    else if a == COMP_I as int && t.iCoef.Some? then t.iCoef.value
    else if a == ACCELERATION as int && t.acceleration.Some? then t.acceleration.value
    else if a == LOCK as int && AnyEeprom(t) then 1
    else before
  }

  lemma FieldFrame(p: Progress, id: byte, addr: byte, data: Option<seq<byte>>, other: byte, a: nat)
    requires Addressable(p.servos, id) && other in p.servos && a < REG_COUNT
    requires Reg(p.servos, id, LOCK as int) != 1 || addr >= TORQUE_ENABLE
    requires data.Some? ==> data.value != []
    requires addr as int + (if data.Some? then |data.value| else 0) <= LOCK as int || addr == MAX_ACCELERATION
    ensures var q := AndThen(p, id, addr, data);
      && Addressable(q.servos, id) && other in q.servos
      && Reg(q.servos, id, LOCK as int) == Reg(p.servos, id, LOCK as int)
      && q.ok == (p.ok && !(data.Some? && addr == MAX_ACCELERATION))
      && Reg(q.servos, other, a) == (if data.Some? && addr != MAX_ACCELERATION && other == id
                                        && addr as int <= a < addr as int + |data.value|
                                     then data.value[a - addr as int] else Reg(p.servos, other, a))
  {
    if data.Some? {
      hide Poke;
      PokeFrame(p.servos, id, addr, data.value, other, a);
      PokeFrame(p.servos, id, addr, data.value, id, LOCK as int);
    }
  }

  lemma EepromMeaning(m: Servos, id: byte, t: Tuning, other: byte, a: nat)
    requires Addressable(m, id) && other in m && a < REG_COUNT && AnyEeprom(t)
    ensures var q := Eeprom(m, id, t);
      && q.ok && Addressable(q.servos, id) && other in q.servos
      && Reg(q.servos, other, a)
         == if other == id then TunedReg(t.(acceleration := None), a, Reg(m, other, a)) else Reg(m, other, a)
  {
    hide Poke, AndThen;
    var p0 := Progress(WithLock(m, id, false), true);
    PokeFrame(m, id, LOCK, FlagByte(false), other, a);
    PokeFrame(m, id, LOCK, FlagByte(false), id, LOCK as int);
    var p1 := AndThen(p0, id, RETURN_DELAY, ByteField(t.returnDelay));
    FieldFrame(p0, id, RETURN_DELAY, ByteField(t.returnDelay), other, a);
    var p2 := AndThen(p1, id, COMP_P, ByteField(t.pCoef));
    FieldFrame(p1, id, COMP_P, ByteField(t.pCoef), other, a);
    var p3 := AndThen(p2, id, COMP_D, ByteField(t.dCoef));
    FieldFrame(p2, id, COMP_D, ByteField(t.dCoef), other, a);
    var p4 := AndThen(p3, id, COMP_I, ByteField(t.iCoef));
    FieldFrame(p3, id, COMP_I, ByteField(t.iCoef), other, a);
    PokeFrame(p4.servos, id, LOCK, FlagByte(true), other, a);
    PokeFrame(p4.servos, id, LOCK, FlagByte(true), id, LOCK as int);
  }

  /**
   Tuning a servo that answers sets exactly the given fields, relocks it if EEPROM
   was opened, and touches nothing else. It reports success exactly when no maximum
   acceleration was asked for: that register lies beyond the simulated file.
   */
  lemma TuningMeaning(m: Servos, id: byte, t: Tuning, other: byte, a: nat)
    requires Addressable(m, id) && other in m && a < REG_COUNT
    ensures Tune(m, id, t).ok <==> t.maxAcceleration.None?
    ensures other in Tune(m, id, t).servos
    ensures Reg(Tune(m, id, t).servos, other, a)
         == if other == id then TunedReg(t, a, Reg(m, other, a)) else Reg(m, other, a)
  {
    hide Poke, AndThen, Eeprom;
    if AnyEeprom(t) { EepromMeaning(m, id, t, other, a); }
    var p := if AnyEeprom(t) then Eeprom(m, id, t) else Progress(m, true);
    var q := AndThen(p, id, ACCELERATION, ByteField(t.acceleration));
    FieldFrame(p, id, ACCELERATION, ByteField(t.acceleration), other, a);
    FieldFrame(q, id, MAX_ACCELERATION, WordField(t.maxAcceleration), other, a);
  }

  /**
   Torque comes on without a jump: a position-mode servo has its present position as
   goal before TORQUE_ENABLE is set, and nothing else moves on any servo.
   */
  lemma TorqueHoldsPosition(m: Servos, id: byte, other: byte, a: nat)
    requires Addressable(m, id) && other in m && a < REG_COUNT
    ensures Takes(HoldPosition(m, id), id, TORQUE_ENABLE, FlagByte(true))
    ensures var m' := Poke(HoldPosition(m, id), id, TORQUE_ENABLE, FlagByte(true));
      && other in m'
      && Reg(m', other, a) ==
         if other == id && a == TORQUE_ENABLE as int then 1
         else if other == id && Reg(m, id, MODE as int) == 0 && 0x2A <= a <= 0x2B then Reg(m, id, a + 0x0E)
         else Reg(m, other, a)
  {
    var p := Peek(m, id, PRESENT_POSITION, 15).value[..2];
    PokeFrame(m, id, GOAL_POSITION, p, other, a);
    PokeFrame(m, id, GOAL_POSITION, p, id, a);
    PokeFrame(HoldPosition(m, id), id, TORQUE_ENABLE, FlagByte(true), other, a);
  }

  /** The last goal given for a servo. */
  function LastGoal(goals: Goals, id: byte): Option<word> {
    if goals == [] then None
    else if LastGoal(goals[1..], id).Some? then LastGoal(goals[1..], id)
    else if goals[0].0 == id then Some(goals[0].1) else None
  }

  lemma {:induction false} SyncGoalsMeaning(m: Servos, goals: Goals, id: byte, a: nat)
    requires id in m && a < REG_COUNT
    ensures id in SyncGoals(m, goals) && SyncGoals(m, goals)[id].present == m[id].present
    ensures Reg(SyncGoals(m, goals), id, a)
         == if 0x2A <= a <= 0x2B && m[id].present && LastGoal(goals, id).Some?
            then WordBytes(LastGoal(goals, id).value)[a - 0x2A] else Reg(m, id, a)
    decreases |goals|
  {
    if goals != [] {
      var m' := Write(m, goals[0].0, GOAL_POSITION, WordBytes(goals[0].1));
      WriteFrame(m, goals[0].0, GOAL_POSITION, WordBytes(goals[0].1), id, a);
      SyncGoalsMeaning(m', goals[1..], id, a);
    }
  }

  // ----- Telemetry

  /** The present-value registers as the simulated servo mirrors them after a physics step. */
  function Mirrored(r: RegisterFile, st: ServoState): RegisterFile {
    var r := Overlay(r, 0x38, WordBytes(st.position));
    var r := Overlay(r, 0x3A, SpeedBytes(st.speed));
    var r := Overlay(r, 0x3C, WordBytes(0));
    var r := Overlay(r, 0x3E, [st.voltageDeci]);
    var r := Overlay(r, 0x3F, [st.temperatureC]);
    Overlay(r, 0x45, WordBytes(st.current))
  }

  lemma WordOfBytes(w: word)
    ensures Word(WordBytes(w)[0], WordBytes(w)[1]) == w
  {}

  lemma SpeedOfBytes(v: int16)
    requires v != -0x8000
    ensures DecodeSignMagnitude(Word(SpeedBytes(v)[0], SpeedBytes(v)[1]), SPEED_SIGN) == v
  {
    SignMagnitudeRoundTripIff(v);
    WordOfBytes(EncodeSignMagnitude(v));
  }

  lemma NoLoad()
    ensures DecodeSignMagnitude(Word(WordBytes(0)[0], WordBytes(0)[1]), LOAD_SIGN) == 0
  {}

  lemma StateOfBytes(d: seq<byte>, st: ServoState)
    requires |d| == 15 && st.load == 0 && st.speed != -0x8000
    requires d[..8] == WordBytes(st.position) + SpeedBytes(st.speed) + WordBytes(0) + [st.voltageDeci, st.temperatureC]
    requires d[13..] == WordBytes(st.current)
    ensures StateOf(d) == st
  {
    hide EncodeSignMagnitude, DecodeSignMagnitude, Low, High, Word;
    WordOfBytes(st.position);
    SpeedOfBytes(st.speed);
    NoLoad();
    WordOfBytes(st.current);
    var e := d[..8];
    assert d[0] == e[0] && d[1] == e[1] && d[2] == e[2] && d[3] == e[3] && d[4] == e[4] && d[5] == e[5];
    assert d[6] == e[6] && d[7] == e[7] && d[13] == d[13..][0] && d[14] == d[13..][1];
  }

  lemma OverlayAt(r: RegisterFile, addr: byte, data: seq<byte>)
    requires addr as int + |data| <= REG_COUNT
    ensures forall k | 0 <= k < REG_COUNT ::
              Overlay(r, addr, data)[k]
              == if addr as int <= k < addr as int + |data| then data[k - addr as int] else r[k]
  {}

  lemma MirroredBytes(r: RegisterFile, st: ServoState)
    ensures Mirrored(r, st)[0x38..0x40] ==
            WordBytes(st.position) + SpeedBytes(st.speed) + WordBytes(0) + [st.voltageDeci, st.temperatureC]
    ensures Mirrored(r, st)[0x45..0x47] == WordBytes(st.current)
    ensures Mirrored(r, st)[..0x38] == r[..0x38]
  {
    hide Overlay, EncodeSignMagnitude, Low, High;
    var r1 := Overlay(r, 0x38, WordBytes(st.position));
    var r2 := Overlay(r1, 0x3A, SpeedBytes(st.speed));
    var r3 := Overlay(r2, 0x3C, WordBytes(0));
    var r4 := Overlay(r3, 0x3E, [st.voltageDeci]);
    var r5 := Overlay(r4, 0x3F, [st.temperatureC]);
    OverlayAt(r, 0x38, WordBytes(st.position));
    OverlayAt(r1, 0x3A, SpeedBytes(st.speed));
    OverlayAt(r2, 0x3C, WordBytes(0));
    OverlayAt(r3, 0x3E, [st.voltageDeci]);
    OverlayAt(r4, 0x3F, [st.temperatureC]);
    OverlayAt(r5, 0x45, WordBytes(st.current));
  }

  /**
   What the servo mirrors is what a state read returns, field by field, the speed
   through its sign-magnitude word; no command or EEPROM register is touched by it.
   */
  lemma TelemetryRoundTrip(m: Servos, id: byte, st: ServoState)
    requires Addressable(m, id) && st.load == 0 && st.speed != -0x8000
    ensures ReadStateSpec(m[id := m[id].(regs := Mirrored(m[id].regs, st))], id) == Some(st)
    ensures Mirrored(m[id].regs, st)[..0x38] == m[id].regs[..0x38]
  {
    hide Mirrored, StateOf, WordBytes, SpeedBytes;
    var r := Mirrored(m[id].regs, st);
    MirroredBytes(m[id].regs, st);
    var d := r[0x38..0x47];
    assert d[..8] == r[0x38..0x40] && d[13..] == r[0x45..0x47];
    StateOfBytes(d, st);
  }

  lemma WrittenFrame(u: Uart, f: Frame)
    requires u.txAccum == [] && u.txMode && |f.params| <= MAX_PARAMS
    ensures Written(u, Encode(f)) == Dispatched(u, f)
  {
    hide Encode, Effect, Reply;
    assert [] + Encode(f) == Encode(f) + [];
    CutOne(f, []);
    assert CutFrames([]) == Cut([], 0, []);
    assert DispatchAll(Dispatched(u, f), [f][1..]) == Dispatched(u, f);
  }

  lemma ReplySize(m: Servos, f: Frame)
    ensures Reply(m, f).Some? ==> |Reply(m, f).value| <= REG_COUNT
  {
  }

  lemma Arrived(resp: seq<byte>, before: seq<byte>, n: nat, status: seq<byte>)
    requires resp + before == status && n <= |before|
    ensures resp + before[..n] + before[n..] == status
    ensures resp + before[..n] == status[..|resp| + n] && before[n..] == status[|resp| + n..]
  {}

  lemma PrefixDecodes(id: byte, p: seq<byte>, resp: seq<byte>, status: seq<byte>)
    requires |p| <= REG_COUNT && status == Status(id, p) && |resp| <= |status| && resp == status[..|resp|]
    ensures Decode(resp).Some? <==> |resp| == |p| + 6
    ensures |resp| == |p| + 6 ==> Decode(resp).value.consumed == |resp| && resp[4..|resp| - 1] == [0] + p
  {
    hide Decode, Status;
    StatusDecodes(id, p, |resp|);
  }

  lemma StatusDecodes(id: byte, p: seq<byte>, n: nat)
    requires |p| <= REG_COUNT && n <= |Status(id, p)|
    ensures var s := Status(id, p);
      && (n < |s| ==> Decode(s[..n]).None?)
      && (n == |s| ==> Decode(s[..n]) == Some(Parsed(Frame(id, PING, [0] + p), n)) && s[4..n - 1] == [0] + p)
      && |s| == |p| + 6
  {
    hide Checksum;
    var f := Frame(id, 0, p);
    if n < |Encode(f)| {
      ProperPrefix(f, n);
    } else {
      DecodeEncode(f, []);
      assert Encode(f)[..n] == Encode(f) + [];
    }
  }
}
