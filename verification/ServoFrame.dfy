/**
 STS3215 frame codec: core/src/servo/Sts3215Frame.{hpp,cpp} and the instruction
 parser of core/src/sim/SimUart.cpp. Every frame on the wire is

     FF FF id length instruction params... checksum

 as laid down in the "Servo Communication Protocol" section of the Waveshare
 STS3215 datasheet.
 */
module ServoFrame {
  import opened Prelude

  const PING: byte := 0x01
  const READ_DATA: byte := 0x02
  const WRITE_DATA: byte := 0x03
  const SYNC_WRITE: byte := 0x83
  const BROADCAST: byte := 0xFE

  /** `length` is one byte and counts instruction and checksum as well. */
  const MAX_PARAMS := 253

  datatype Frame = Frame(id: byte, instruction: byte, params: seq<byte>)
  datatype Parsed = Parsed(frame: Frame, consumed: nat)

  function Sum(s: seq<byte>): nat {
    if s == [] then 0 else Sum(s[..|s| - 1]) + s[|s| - 1]
  }

  function Checksum(id: byte, length: byte, instr: byte, params: seq<byte>): byte {
    255 - (id + length + instr + Sum(params)) % 256
  }

  lemma WrapKeepsLowByte(a: int, b: int, x: int)
    requires a % 256 == b % 256
    ensures (a + x) % 0x1_0000_0000 % 256 == (b + x) % 256
  {
    var q := (a + x) / 0x1_0000_0000;
    assert a + x == q * 0x100_0000 * 256 + (a + x) % 0x1_0000_0000;
    assert a + x == (b + x) + (a / 256 - b / 256) * 256;
  }

  /** The bytes of a frame behind its header, checksum included, sum to 255 modulo 256. */
  lemma ChecksumLaw(id: byte, length: byte, instr: byte, params: seq<byte>)
    ensures (id as int + length as int + instr as int + Sum(params)
             + Checksum(id, length, instr, params) as int) % 256 == 255
  {
  }

  lemma SumOfOne(x: byte)
    ensures Sum([x]) == x as int
  {
    assert [x][..0] == [];
  }

  lemma {:induction false} SumAppend(a: seq<byte>, b: seq<byte>)
    ensures Sum(a + b) == Sum(a) + Sum(b)
    decreases |b|
  {
    if b == [] {
      assert a + b == a;
    } else {
      assert (a + b)[..|a + b| - 1] == a + b[..|b| - 1];
      SumAppend(a, b[..|b| - 1]);
    }
  }

  /** The source's loop, with its 32-bit accumulator written out. */
  method ComputeChecksum(id: byte, length: byte, instr: byte, params: seq<byte>) returns (cs: byte)
    ensures cs == Checksum(id, length, instr, params)
  {
    var sum: int := id as int + length as int + instr as int;
    for i := 0 to |params|
      invariant sum % 256 == (id + length + instr + Sum(params[..i])) % 256
    {
      assert params[..i + 1][..i] == params[..i];
      WrapKeepsLowByte(sum, id + length + instr + Sum(params[..i]), params[i]);
      sum := (sum + params[i]) % 0x1_0000_0000;
    }
    assert params[..|params|] == params;
    cs := 255 - sum % 256;
  }

  function LengthByte(f: Frame): byte { (|f.params| + 2) % 256 }

  function Encode(f: Frame): seq<byte> {
    [0xFF, 0xFF, f.id, LengthByte(f), f.instruction] + f.params
    + [Checksum(f.id, LengthByte(f), f.instruction, f.params)]
  }

  predicate HasHeader(buf: seq<byte>) { |buf| >= 2 && buf[0] == 0xFF && buf[1] == 0xFF }

  function FrameSize(buf: seq<byte>): nat
    requires |buf| >= 4
  {
    4 + buf[3] as int
  }

  /** The guards common to `decode` and `tryParseInstruction`. */
  predicate Complete(buf: seq<byte>) {
    && |buf| >= 6
    && HasHeader(buf)
    && buf[3] >= 2
    && |buf| >= FrameSize(buf)
    && buf[FrameSize(buf) - 1] == Checksum(buf[2], buf[3], buf[4], buf[5..FrameSize(buf) - 1])
  }

  function TryParse(buf: seq<byte>): (r: Option<Parsed>)
    ensures r.Some? ==> 6 <= r.value.consumed <= |buf|
  {
    if Complete(buf) then Some(Parsed(Frame(buf[2], buf[4], buf[5..FrameSize(buf) - 1]), FrameSize(buf)))
    else None
  }

  /** Status frames carry an error byte where commands carry the instruction. */
  function Decode(buf: seq<byte>): Option<Parsed> {
    if Complete(buf) then Some(Parsed(Frame(buf[2], PING, buf[4..FrameSize(buf) - 1]), FrameSize(buf)))
    else None
  }

  // ----- Round trip

  /** A ping of servo 1 on the wire. */
  lemma PingBytes()
    ensures Encode(Frame(1, PING, [])) == [0xFF, 0xFF, 0x01, 0x02, 0x01, 0xFB]
  {
  }

  lemma EncodeComplete(f: Frame, rest: seq<byte>)
    requires |f.params| <= MAX_PARAMS
    ensures Complete(Encode(f) + rest)
    ensures (Encode(f) + rest)[3] == |f.params| + 2
    ensures (Encode(f) + rest)[5..5 + |f.params|] == f.params
  {
    var buf := Encode(f) + rest;
    assert buf[5..5 + |f.params|] == f.params;
  }

  /** Parsing inverts encoding whatever follows on the wire. */
  lemma ParseEncode(f: Frame, rest: seq<byte>)
    requires |f.params| <= MAX_PARAMS
    ensures TryParse(Encode(f) + rest) == Some(Parsed(f, |Encode(f)|))
  {
    EncodeComplete(f, rest);
  }

  lemma DecodeEncode(f: Frame, rest: seq<byte>)
    requires |f.params| <= MAX_PARAMS
    ensures Decode(Encode(f) + rest) == Some(Parsed(Frame(f.id, PING, [f.instruction] + f.params), |Encode(f)|))
  {
    EncodeComplete(f, rest);
    var buf := Encode(f) + rest;
    assert buf[4..5 + |f.params|] == [buf[4]] + buf[5..5 + |f.params|];
  }

  /** The one-byte length is exactly what limits the codec. */
  lemma RoundTripIff(f: Frame)
    ensures TryParse(Encode(f)) == Some(Parsed(f, |Encode(f)|)) <==> |f.params| <= MAX_PARAMS
  {
    assert Encode(f) + [] == Encode(f);
    if |f.params| <= MAX_PARAMS {
      ParseEncode(f, []);
    }
  }

  /** An unfinished frame never parses, and never looks like noise either. */
  lemma ProperPrefix(f: Frame, n: nat)
    requires |f.params| <= MAX_PARAMS
    requires n < |Encode(f)|
    ensures TryParse(Encode(f)[..n]) == None && Decode(Encode(f)[..n]) == None
    ensures n >= 2 ==> HasHeader(Encode(f)[..n])
  {
  }

  lemma ParseExtend(buf: seq<byte>, more: seq<byte>)
    requires Complete(buf)
    ensures TryParse(buf + more) == TryParse(buf)
  {
    assert (buf + more)[5..FrameSize(buf) - 1] == buf[5..FrameSize(buf) - 1];
  }

  // ----- Sign-magnitude words

  type int16 = x: int | -0x8000 <= x < 0x8000

  /** Direction flags: bit 15 of a speed word, bit 10 of a load word. */
  const SPEED_SIGN := 0x8000
  const LOAD_SIGN := 0x400

  /** `-v | 0x8000` for a negative speed: at -32768 magnitude and flag are the same bit. */
  function EncodeSignMagnitude(v: int16): word {
    if v >= 0 then v else if v == -0x8000 then 0x8000 else 0x8000 - v
  }

  function DecodeSignMagnitude(raw: word, flag: int): int16
    requires flag == SPEED_SIGN || flag == LOAD_SIGN
  {
    if raw / flag % 2 == 1 then -(raw % flag) else raw % flag
  }

  /** Bit 15 is the sign and the rest the magnitude. */
  lemma SignMagnitudeMeaning(v: int16)
    requires v != -0x8000
    ensures EncodeSignMagnitude(v) % 0x8000 == (if v < 0 then -v else v)
    ensures EncodeSignMagnitude(v) >= 0x8000 <==> v < 0
  {
  }

  lemma SignMagnitudeRoundTripIff(v: int16)
    ensures DecodeSignMagnitude(EncodeSignMagnitude(v), SPEED_SIGN) == v <==> v != -0x8000
  {
  }
}
