/** Register file of the simulated servos: core/src/sim/ServoModel.cpp, without its physics. */
module ServoRegisters {
  import opened Prelude

  const REG_COUNT := 0x50

  const RETURN_DELAY: byte := 0x07
  const MIN_ANGLE_LIMIT: byte := 0x09
  const COMP_P: byte := 0x15
  const COMP_D: byte := 0x16
  const COMP_I: byte := 0x17
  const MODE: byte := 0x21
  const TORQUE_ENABLE: byte := 0x28
  const ACCELERATION: byte := 0x29
  const GOAL_POSITION: byte := 0x2A
  const GOAL_SPEED: byte := 0x2E
  const TORQUE_LIMIT: byte := 0x30
  const LOCK: byte := 0x37
  const PRESENT_POSITION: byte := 0x38
  const MAX_ACCELERATION: byte := 0x55

  type RegisterFile = r: seq<byte> | |r| == REG_COUNT witness seq(REG_COUNT, i => 0)

  datatype Servo = Servo(present: bool, regs: RegisterFile)
  type Servos = map<byte, Servo>

  predicate Present(m: Servos, id: byte) { id in m && m[id].present }

  predicate Accepts(m: Servos, id: byte, addr: byte, data: seq<byte>) {
    && Present(m, id)
    && data != []
    && addr as int + |data| <= REG_COUNT
    && !(m[id].regs[LOCK] == 1 && addr < TORQUE_ENABLE && addr != LOCK)
  }

  function Overlay(regs: RegisterFile, addr: byte, data: seq<byte>): RegisterFile
    requires addr as int + |data| <= REG_COUNT
  {
    regs[..addr] + data + regs[addr as int + |data|..]
  }

  /** The register file after a write request: refused requests change nothing. */
  function Write(m: Servos, id: byte, addr: byte, data: seq<byte>): Servos {
    if Accepts(m, id, addr, data) then m[id := m[id].(regs := Overlay(m[id].regs, addr, data))] else m
  }

  predicate Readable(m: Servos, id: byte, addr: byte, len: byte) {
    Present(m, id) && addr as int + len as int <= REG_COUNT
  }

  function Read(m: Servos, id: byte, addr: byte, len: byte): Option<seq<byte>> {
    if Readable(m, id, addr, len) then Some(m[id].regs[addr..addr as int + len as int]) else None
  }

  class ServoModel {
    var servos: Servos

    constructor (initial: Servos)
      ensures servos == initial
    {
      servos := initial;
    }

    method WriteReg(id: byte, addr: byte, data: seq<byte>) returns (ok: bool)
      modifies this
      ensures ok == Accepts(old(servos), id, addr, data)
      ensures servos == Write(old(servos), id, addr, data)
    {
      if id !in servos || !servos[id].present { return false; }
      if |data| == 0 { return false; }
      if addr as int + |data| > REG_COUNT { return false; }
      var locked := servos[id].regs[LOCK] == 1;
      if locked && addr < TORQUE_ENABLE && addr != LOCK { return false; }
      ghost var before := servos[id].regs;
      for i := 0 to |data|
        invariant id in servos && servos == old(servos)[id := servos[id]]
        invariant servos[id] == old(servos)[id].(regs := Overlay(before, addr, data[..i]))
      {
        assert Overlay(before, addr, data[..i])[addr as int + i := data[i]] == Overlay(before, addr, data[..i + 1]);
        servos := servos[id := servos[id].(regs := servos[id].regs[addr as int + i := data[i]])];
      }
      assert data[..|data|] == data;
      ok := true;
    }

    method ReadRegs(id: byte, addr: byte, len: byte) returns (r: Option<seq<byte>>)
      ensures r == Read(servos, id, addr, len)
    {
      if id !in servos || !servos[id].present { return None; }
      if addr as int + len as int > REG_COUNT { return None; }
      r := Some(servos[id].regs[addr..addr as int + len as int]);
    }
  }

  // ----- What a write can and cannot touch

  function Reg(m: Servos, id: byte, a: nat): byte
    requires id in m && a < REG_COUNT
  {
    m[id].regs[a]
  }

  lemma WriteFrame(m: Servos, id: byte, addr: byte, data: seq<byte>, other: byte, a: nat)
    requires other in m && a < REG_COUNT
    ensures Write(m, id, addr, data).Keys == m.Keys
    ensures Write(m, id, addr, data)[other].present == m[other].present
    ensures Accepts(m, id, addr, data) && other == id && addr as int <= a < addr as int + |data|
            ==> Reg(Write(m, id, addr, data), other, a) == data[a - addr as int]
    ensures !(Accepts(m, id, addr, data) && other == id && addr as int <= a < addr as int + |data|)
            ==> Reg(Write(m, id, addr, data), other, a) == Reg(m, other, a)
  {
  }

  /** EEPROM (addresses below TORQUE_ENABLE) is frozen while LOCK is 1, whatever is written where. */
  lemma LockFreezesEeprom(m: Servos, id: byte, addr: byte, data: seq<byte>, other: byte, a: nat)
    requires other in m && a < TORQUE_ENABLE as int && Reg(m, other, LOCK) == 1
    ensures Reg(Write(m, id, addr, data), other, a) == Reg(m, other, a)
  {
    WriteFrame(m, id, addr, data, other, a);
  }

  /**
   A servo on the bus reads back what was just written exactly when the write ends inside the 80 registers and
   does not start below 0x28 while register 0x37 is 1, unless the same bytes were there already.
   */
  lemma ReadBackIff(m: Servos, id: byte, addr: byte, data: seq<byte>)
    requires Present(m, id) && 0 < |data| <= 255
    ensures Read(Write(m, id, addr, data), id, addr, |data|) == Some(data) <==>
      addr as int + |data| <= 80 && (Reg(m, id, 0x37) != 1 || addr >= 0x28
                                     || m[id].regs[addr..addr as int + |data|] == data)
  {
    if Accepts(m, id, addr, data) {
      assert Overlay(m[id].regs, addr, data)[addr..addr as int + |data|] == data;
    }
  }
}
