/**
 The simulated UART: core/src/sim/SimUart.cpp. Bytes written by the bus are
 accumulated, cut into instruction frames, and applied to the register file;
 replies are queued on the receive side.
 */
module SimUart {
  import opened Prelude
  import opened ServoFrame
  import opened ServoRegisters

  // ----- Cutting a byte stream into frames

  /** What the write loop makes of a buffer: frames handed on, bytes dropped to resynchronize, bytes kept. */
  datatype Cut = Cut(frames: seq<Frame>, dropped: nat, rest: seq<byte>)

  /** One turn of the write loop: hand on a frame, drop a byte that cannot start one, or wait. */
  datatype Turn = Take(frame: Frame, size: nat) | Drop | Wait

  function NextTurn(buf: seq<byte>): (t: Turn)
    ensures t.Take? ==> 6 <= t.size <= |buf|
    ensures t.Drop? ==> |buf| >= 2
  {
    match TryParse(buf)
    case Some(p) => Take(p.frame, p.consumed)
    case None => if |buf| >= 2 && !HasHeader(buf) then Drop else Wait
  }

  lemma TurnExtend(buf: seq<byte>, more: seq<byte>)
    requires !NextTurn(buf).Wait?
    ensures NextTurn(buf + more) == NextTurn(buf)
  {
    if Complete(buf) {
      ParseExtend(buf, more);
    }
  }

  function CutFrames(buf: seq<byte>): Cut
    decreases |buf|
  {
    match NextTurn(buf)
    case Take(f, n) => var c := CutFrames(buf[n..]); Cut([f] + c.frames, c.dropped, c.rest)
    case Drop => var c := CutFrames(buf[1..]); Cut(c.frames, c.dropped + 1, c.rest)
    case Wait => Cut([], 0, buf)
  }

  function Then(a: Cut, b: Cut): Cut { Cut(a.frames + b.frames, a.dropped + b.dropped, b.rest) }

  /** Chunking is invisible: cutting `a + more` is cutting `a`, then what was kept of it plus `more`. */
  lemma {:induction false} CutAppend(a: seq<byte>, more: seq<byte>)
    ensures CutFrames(a + more) == Then(CutFrames(a), CutFrames(CutFrames(a).rest + more))
    decreases |a|
  {
    hide NextTurn;
    var t := NextTurn(a);
    if !t.Wait? {
      var n := if t.Take? then t.size else 1;
      TurnExtend(a, more);
      assert (a + more)[n..] == a[n..] + more;
      CutAppend(a[n..], more);
      var c := CutFrames(a[n..]);
      var d := CutFrames(c.rest + more);
      if t.Take? {
        assert [t.frame] + (c.frames + d.frames) == ([t.frame] + c.frames) + d.frames;
      }
    }
  }

  function EncodeAll(fs: seq<Frame>): seq<byte> {
    if fs == [] then [] else Encode(fs[0]) + EncodeAll(fs[1..])
  }

  predicate Encodable(fs: seq<Frame>) { forall f | f in fs :: |f.params| <= MAX_PARAMS }

  lemma CutOne(f: Frame, rest: seq<byte>)
    requires |f.params| <= MAX_PARAMS
    ensures CutFrames(Encode(f) + rest) == Then(Cut([f], 0, []), CutFrames(rest))
  {
    ParseEncode(f, rest);
    assert NextTurn(Encode(f) + rest) == Take(f, |Encode(f)|);
    assert (Encode(f) + rest)[|Encode(f)|..] == rest;
  }

  lemma {:induction false} CutEncoded(fs: seq<Frame>, tail: seq<byte>)
    requires Encodable(fs)
    ensures CutFrames(EncodeAll(fs) + tail) == Then(Cut(fs, 0, []), CutFrames(tail))
    decreases |fs|
  {
    hide CutFrames, Encode;
    if fs == [] {
      assert EncodeAll(fs) + tail == tail;
    } else {
      var more := EncodeAll(fs[1..]) + tail;
      calc {
        CutFrames(EncodeAll(fs) + tail);
        { assert EncodeAll(fs) + tail == Encode(fs[0]) + more; }
        CutFrames(Encode(fs[0]) + more);
        { CutOne(fs[0], more); CutEncoded(fs[1..], tail); }
        Then(Cut([fs[0]], 0, []), Then(Cut(fs[1..], 0, []), CutFrames(tail)));
        { assert [fs[0]] + (fs[1..] + CutFrames(tail).frames) == fs + CutFrames(tail).frames; }
        Then(Cut(fs, 0, []), CutFrames(tail));
      }
    }
  }

  function Flatten(chunks: seq<seq<byte>>): seq<byte> {
    if chunks == [] then [] else Flatten(chunks[..|chunks| - 1]) + chunks[|chunks| - 1]
  }

  /** Writing the chunks one after another, starting with nothing buffered. */
  function CutChunks(chunks: seq<seq<byte>>): Cut {
    if chunks == [] then Cut([], 0, [])
    else
      var c := CutChunks(chunks[..|chunks| - 1]);
      Then(c, CutFrames(c.rest + chunks[|chunks| - 1]))
  }

  lemma {:induction false} CutChunksIsCut(chunks: seq<seq<byte>>)
    ensures CutChunks(chunks) == CutFrames(Flatten(chunks))
    decreases |chunks|
  {
    if chunks != [] {
      var init := chunks[..|chunks| - 1];
      CutChunksIsCut(init);
      CutAppend(Flatten(init), chunks[|chunks| - 1]);
    }
  }

  /**
   Reassembly: a stream of encoded frames followed by an unfinished one, written
   in any chunks, is dispatched as exactly those frames in order, drops no byte,
   and leaves exactly the unfinished tail.
   */
  lemma Reassembly(fs: seq<Frame>, last: Frame, n: nat, chunks: seq<seq<byte>>)
    requires Encodable(fs) && |last.params| <= MAX_PARAMS
    requires n < |Encode(last)|
    requires Flatten(chunks) == EncodeAll(fs) + Encode(last)[..n]
    ensures CutChunks(chunks) == Cut(fs, 0, Encode(last)[..n])
  {
    CutChunksIsCut(chunks);
    CutEncoded(fs, Encode(last)[..n]);
    ProperPrefix(last, n);
  }

  // ----- When resynchronization works

  /** A header whose frame is already known to be bad: an impossible length, or a wrong checksum. */
  predicate Wedged(buf: seq<byte>) {
    && |buf| >= 4
    && HasHeader(buf)
    && (buf[3] < 2 || (|buf| >= FrameSize(buf) && !Complete(buf)))
  }

  lemma WedgedForever(buf: seq<byte>, more: seq<byte>)
    requires Wedged(buf)
    ensures CutFrames(buf + more) == Cut([], 0, buf + more)
  {
    if buf[3] >= 2 {
      assert (buf + more)[5..FrameSize(buf) - 1] == buf[5..FrameSize(buf) - 1];
    }
  }

  function Zeros(n: nat): seq<byte> { seq(n, i => 0) }

  /** A frame that begins with `rest`. */
  lemma Completion(rest: seq<byte>) returns (f: Frame)
    requires rest == [] || rest == [0xFF] || HasHeader(rest)
    requires |rest| >= 4 ==> 2 <= rest[3] && |rest| < FrameSize(rest)
    ensures |f.params| <= MAX_PARAMS && |rest| < |Encode(f)| && Encode(f)[..|rest|] == rest
  {
    hide Checksum;
    if |rest| <= 3 {
      f := Frame(if |rest| == 3 then rest[2] else 1, PING, []);
    } else {
      var body := rest[4..] + Zeros(FrameSize(rest) - 1 - |rest|);
      f := Frame(rest[2], body[0], body[1..]);
      assert [body[0]] + body[1..] == body;
      assert Encode(f)[..4] == rest[..4];
      assert Encode(f)[4..|rest|] == body[..|rest| - 4] == rest[4..];
      assert Encode(f)[..|rest|] == Encode(f)[..4] + Encode(f)[4..|rest|];
    }
  }

  /**
   The resync branch drops bytes only while the buffer does not begin FF FF, so a
   leftover recovers if and only if it is not a known-bad frame: a wedged buffer
   dispatches nothing for any continuation, any other leftover has one that does.
   */
  lemma RecoverableIff(rest: seq<byte>)
    requires CutFrames(rest) == Cut([], 0, rest)
    ensures (exists more :: CutFrames(rest + more).frames != []) <==> !Wedged(rest)
  {
    if Wedged(rest) {
      forall more ensures CutFrames(rest + more).frames == [] {
        WedgedForever(rest, more);
      }
    } else {
      RescueWorks(rest);
    }
  }

  lemma RescueWorks(rest: seq<byte>)
    requires !Wedged(rest)
    requires CutFrames(rest) == Cut([], 0, rest)
    ensures exists more :: CutFrames(rest + more).frames != []
  {
    if |rest| == 1 && rest[0] != 0xFF {
      var ping := Frame(1, PING, []);
      hide CutFrames, Encode;
      CleanResumes(rest, ping);
      assert CutFrames(rest + Encode(ping)).frames != [];
    } else {
      assert NextTurn(rest).Wait?;
      var f := Completion(rest);
      CutOne(f, []);
      hide NextTurn, Encode;
      var more := Encode(f)[|rest|..];
      assert rest + more == Encode(f) + [];
      assert CutFrames(rest + more).frames != [];
    }
  }

  // ----- When nothing more is lost

  /** Nothing left, or one byte that cannot begin a header. */
  predicate Clean(rest: seq<byte>) { rest == [] || (|rest| == 1 && rest[0] != 0xFF) }

  lemma CleanResumes(rest: seq<byte>, f: Frame)
    requires Clean(rest) && |f.params| <= MAX_PARAMS
    ensures CutFrames(rest + Encode(f)) == Cut([f], |rest|, [])
  {
    hide Encode;
    CutOne(f, []);
    assert Encode(f) + [] == Encode(f);
    if rest == [] {
      assert rest + Encode(f) == Encode(f);
    } else {
      assert (rest + Encode(f))[1..] == Encode(f);
      EncodeComplete(f, []);
      assert NextTurn(rest + Encode(f)).Drop?;
    }
  }

  lemma {:induction false} TooShort(buf: seq<byte>)
    requires |buf| < 6
    ensures CutFrames(buf).frames == []
    decreases |buf|
  {
    if NextTurn(buf).Drop? { TooShort(buf[1..]); }
  }

  /** A frame too short to be taken after its first bytes completed another servo's. */
  lemma LostInside(rest: seq<byte>, f: Frame)
    requires |rest| >= 4 && HasHeader(rest) && |rest| < FrameSize(rest) && f.params == [] && f.id != rest[2]
    ensures f !in CutFrames(rest + Encode(f)).frames
  {
    hide Checksum;
    var buf := rest + Encode(f);
    if Complete(buf) {
      var n := FrameSize(buf);
      TooShort(buf[n..]);
      assert NextTurn(buf) == Take(Frame(rest[2], buf[4], buf[5..n - 1]), n);
    }
  }

  /** A frame that is lost behind any other leftover. */
  lemma LostBehind(rest: seq<byte>) returns (f: Frame)
    requires CutFrames(rest) == Cut([], 0, rest) && !Clean(rest)
    ensures |f.params| <= MAX_PARAMS && f !in CutFrames(rest + Encode(f)).frames
  {
    hide Checksum;
    assert NextTurn(rest).Wait?;
    f := Frame(if |rest| >= 3 && rest[2] == 1 then 0 else 1, PING, []);
    var buf := rest + Encode(f);
    if |rest| == 1 {
      assert buf[3] == 1 && NextTurn(buf).Wait?;
    } else if |rest| <= 3 {
      assert buf[3] == 0xFF && |buf| < 10 && NextTurn(buf).Wait?;
    } else if Wedged(rest) {
      WedgedForever(rest, Encode(f));
    } else {
      LostInside(rest, f);
    }
  }

  /** What is left over lets every later frame through exactly if it is clean. */
  lemma ResumesIff(rest: seq<byte>)
    requires CutFrames(rest) == Cut([], 0, rest)
    ensures (forall f: Frame | |f.params| <= MAX_PARAMS :: f in CutFrames(rest + Encode(f)).frames) <==> Clean(rest)
  {
    hide CutFrames, Encode;
    if Clean(rest) {
      forall f: Frame | |f.params| <= MAX_PARAMS ensures f in CutFrames(rest + Encode(f)).frames {
        CleanResumes(rest, f);
      }
    } else {
      var f := LostBehind(rest);
    }
  }

  // ----- Dispatch

  datatype Uart = Uart(servos: Servos, txAccum: seq<byte>, rx: seq<byte>, malformed: nat, txMode: bool)

  function Status(id: byte, params: seq<byte>): seq<byte> { Encode(Frame(id, 0, params)) }

  /** The parameters of the reply to a frame, if it draws one. */
  function Reply(m: Servos, f: Frame): Option<seq<byte>> {
    if f.id == BROADCAST then None
    else if f.instruction == PING then (if Present(m, f.id) then Some([]) else None)
    else if f.instruction == READ_DATA && |f.params| >= 2 then Read(m, f.id, f.params[0], f.params[1])
    else if f.instruction == WRITE_DATA && |f.params| >= 1 && Accepts(m, f.id, f.params[0], f.params[1..]) then Some([])
    else None
  }

  /** Per-servo groups of a sync write, as many as are whole. */
  function SyncEffect(m: Servos, addr: byte, per: byte, data: seq<byte>): Servos
    decreases |data|
  {
    if |data| < 1 + per as int then m
    else SyncEffect(Write(m, data[0], addr, data[1..1 + per as int]), addr, per, data[1 + per as int..])
  }

  /** Register effect of a frame, by direct access to the register file. */
  function Effect(m: Servos, f: Frame): Servos {
    if f.instruction == WRITE_DATA && |f.params| >= 1 && f.id != BROADCAST then
      Write(m, f.id, f.params[0], f.params[1..])
    else if f.instruction == SYNC_WRITE && |f.params| >= 2 then
      SyncEffect(m, f.params[0], f.params[1], f.params[2..])
    else m
  }

  predicate MalformedFrame(f: Frame) { f.instruction == SYNC_WRITE && |f.params| < 2 }

  function Dispatched(u: Uart, f: Frame): Uart {
    u.(servos := Effect(u.servos, f),
       rx := u.rx + (match Reply(u.servos, f) case Some(p) => Status(f.id, p) case None => []),
       malformed := u.malformed + if MalformedFrame(f) then 1 else 0)
  }

  function DispatchAll(u: Uart, fs: seq<Frame>): Uart
    decreases |fs|
  {
    if fs == [] then u else DispatchAll(Dispatched(u, fs[0]), fs[1..])
  }

  /** State after the write loop has worked through a buffer. */
  function Drained(u: Uart, c: Cut): Uart {
    DispatchAll(u.(malformed := u.malformed + c.dropped), c.frames).(txAccum := c.rest)
  }

  function Written(u: Uart, data: seq<byte>): Uart {
    Drained(u.(rx := if u.txMode then u.rx else u.rx + data), CutFrames(u.txAccum + data))
  }

  class SimUart {
    const model: ServoModel
    var txAccum: seq<byte>
    var rx: seq<byte>
    var malformed: nat
    var txMode: bool

    ghost function State(): Uart
      reads this, model
    {
      Uart(model.servos, txAccum, rx, malformed, txMode)
    }

    constructor (model: ServoModel)
      ensures this.model == model && State() == Uart(model.servos, [], [], 0, false)
    {
      this.model := model;
      txAccum, rx, malformed, txMode := [], [], 0, false;
    }

    method SetHalfDuplexDirection(tx: bool)
      modifies this
      ensures State() == old(State()).(txMode := tx)
    {
      txMode := tx;
    }

    method Write(data: seq<byte>) returns (n: nat)
      modifies this, model
      ensures n == |data|
      ensures State() == Written(old(State()), data)
    {
      hide Complete, Dispatched, CutFrames, Drained;
      if !txMode { rx := rx + data; }
      txAccum := txAccum + data;
      ghost var goal := Drained(State(), CutFrames(txAccum));
      assert goal == Written(old(State()), data) by {
        TxAccumIrrelevant(old(State()).(rx := rx), CutFrames(txAccum), txAccum);
      }
      while txAccum != []
        invariant Drained(State(), CutFrames(txAccum)) == goal
        decreases |txAccum|
      {
        var p := TryParse(txAccum);
        if p.None? {
          if |txAccum| >= 2 && !(txAccum[0] == 0xFF && txAccum[1] == 0xFF) {
            DropStep(State());
            malformed := malformed + 1;
            txAccum := txAccum[1..];
            continue;
          }
          break;
        }
        FrameStep(State(), p.value.frame, p.value.consumed);
        Dispatch(p.value.frame);
        txAccum := txAccum[p.value.consumed..];
      }
      KeepStep(State());
      n := |data|;
    }

    method Read(n: nat) returns (buf: seq<byte>)
      modifies this
      ensures buf == old(rx)[..Min(n, |old(rx)|)]
      ensures State() == old(State()).(rx := old(rx)[Min(n, |old(rx)|)..])
    {
      buf := [];
      while |buf| < n && rx != []
        invariant |buf| <= n && buf + rx == old(rx)
        invariant State() == old(State()).(rx := rx)
        decreases |rx|
      {
        buf := buf + [rx[0]];
        rx := rx[1..];
      }
      assert old(rx)[|buf|..] == rx;
    }

    method Respond(id: byte, params: seq<byte>)
      modifies this
      ensures State() == old(State()).(rx := old(rx) + Status(id, params))
    {
      var len := (|params| + 2) % 256;
      var cs := ComputeChecksum(id, len, 0, params);
      rx := rx + [0xFF, 0xFF, id, len, 0];
      rx := rx + params;
      rx := rx + [cs];
    }

    method Dispatch(f: Frame)
      modifies this, model
      ensures State() == Dispatched(old(State()), f) && txAccum == old(txAccum)
    {
      var broadcast := f.id == BROADCAST;
      if f.instruction == PING {
        if !broadcast && f.id in model.servos && model.servos[f.id].present { Respond(f.id, []); }
      } else if f.instruction == READ_DATA {
        if broadcast || |f.params| < 2 { return; }
        var data := model.ReadRegs(f.id, f.params[0], f.params[1]);
        if data.Some? { Respond(f.id, data.value); }
      } else if f.instruction == WRITE_DATA {
        if |f.params| < 1 { return; }
        if broadcast { return; }
        var ok := model.WriteReg(f.id, f.params[0], f.params[1..]);
        if ok { Respond(f.id, []); }
      } else if f.instruction == SYNC_WRITE {
        if |f.params| < 2 { malformed := malformed + 1; return; }
        SyncWrite(f.params[0], f.params[1], f.params);
      }
    }

    method SyncWrite(addr: byte, per: byte, params: seq<byte>)
      requires |params| >= 2
      modifies model
      ensures model.servos == SyncEffect(old(model.servos), addr, per, params[2..])
    {
      var i := 2;
      while i + 1 + per as int <= |params|
        invariant 2 <= i <= |params|
        invariant SyncEffect(model.servos, addr, per, params[i..])
            == SyncEffect(old(model.servos), addr, per, params[2..])
      {
        var next := i + 1 + per as int;
        assert params[i..][1..1 + per as int] == params[i + 1..next] && params[i..][1 + per as int..] == params[next..];
        var _ := model.WriteReg(params[i], addr, params[i + 1..next]);
        i := next;
      }
    }
  }

  lemma {:induction false} DispatchAllFrame(u: Uart, fs: seq<Frame>, d: nat, acc: seq<byte>)
    ensures DispatchAll(u.(malformed := u.malformed + d, txAccum := acc), fs)
         == DispatchAll(u, fs).(malformed := DispatchAll(u, fs).malformed + d, txAccum := acc)
    decreases |fs|
  {
    if fs != [] {
      DispatchAllFrame(Dispatched(u, fs[0]), fs[1..], d, acc);
    }
  }

  lemma TxAccumIrrelevant(u: Uart, c: Cut, acc: seq<byte>)
    ensures Drained(u.(txAccum := acc), c) == Drained(u, c)
  {
    DispatchAllFrame(u.(malformed := u.malformed + c.dropped), c.frames, 0, acc);
  }

  lemma DropStep(u: Uart)
    requires NextTurn(u.txAccum).Drop?
    ensures Drained(u, CutFrames(u.txAccum))
         == Drained(u.(malformed := u.malformed + 1, txAccum := u.txAccum[1..]), CutFrames(u.txAccum[1..]))
  {
    hide NextTurn, Dispatched;
    TxAccumIrrelevant(u.(malformed := u.malformed + 1), CutFrames(u.txAccum[1..]), u.txAccum[1..]);
  }

  lemma KeepStep(u: Uart)
    requires NextTurn(u.txAccum).Wait?
    ensures Drained(u, CutFrames(u.txAccum)) == u
  {
  }

  lemma FrameStep(u: Uart, f: Frame, n: nat)
    requires NextTurn(u.txAccum) == Take(f, n)
    ensures Drained(u, CutFrames(u.txAccum))
         == Drained(Dispatched(u, f).(txAccum := u.txAccum[n..]), CutFrames(u.txAccum[n..]))
  {
    hide NextTurn, Effect, Reply;
    var c := CutFrames(u.txAccum[n..]);
    var fs := [f] + c.frames;
    assert fs[1..] == c.frames;
    TxAccumIrrelevant(Dispatched(u, f), c, u.txAccum[n..]);
  }

  // ----- What a stream of frames does to the counter and the reply line

  /** Sync writes (instruction 0x83) too short for an address and a group size. */
  function ShortSyncs(fs: seq<Frame>): nat {
    if fs == [] then 0
    else
      var f := fs[|fs| - 1];
      ShortSyncs(fs[..|fs| - 1]) + if f.instruction == 0x83 && |f.params| < 2 then 1 else 0
  }

  lemma {:induction false} DispatchLast(u: Uart, fs: seq<Frame>)
    requires fs != []
    ensures DispatchAll(u, fs) == Dispatched(DispatchAll(u, fs[..|fs| - 1]), fs[|fs| - 1])
    decreases |fs|
  {
    hide Dispatched;
    if |fs| == 1 {
      assert fs[1..] == [];
    } else {
      DispatchLast(Dispatched(u, fs[0]), fs[1..]);
      assert fs[1..][..|fs| - 2] == fs[..|fs| - 1][1..];
    }
  }

  lemma {:induction false} DispatchCounts(u: Uart, fs: seq<Frame>)
    ensures DispatchAll(u, fs).malformed == u.malformed + ShortSyncs(fs)
    decreases |fs|
  {
    if fs != [] {
      hide Effect, Reply, Status, DispatchAll;
      DispatchCounts(u, fs[..|fs| - 1]);
      DispatchLast(u, fs);
    }
  }

  /** The malformed count grows by the bytes dropped and the short sync writes, and by nothing else. */
  lemma MalformedCount(u: Uart, c: Cut)
    ensures Drained(u, c).malformed == u.malformed + c.dropped + ShortSyncs(c.frames)
  {
    hide DispatchAll;
    DispatchCounts(u.(malformed := u.malformed + c.dropped), c.frames);
  }

  /** No instruction other than ping, read and write is answered, and nothing sent to all servos is. */
  lemma SilentIff(m: Servos, f: Frame)
    ensures Reply(m, f).None? <==>
      || f.id == 0xFE
      || !Present(m, f.id)
      || (f.instruction == 2 && (|f.params| < 2 || f.params[0] as int + f.params[1] as int > 80))
      || (f.instruction == 3 && (|f.params| < 2 || f.params[0] as int + |f.params| - 1 > 80
                                 || (m[f.id].regs[0x37] == 1 && f.params[0] < 0x28)))
      || f.instruction !in {1, 2, 3}
  {
  }

  /** On an idle line a frame is echoed first, unless transmitting, and then answered if it draws a reply. */
  lemma EchoThenReply(u: Uart, f: Frame)
    requires u.txAccum == [] && |f.params| <= 253
    ensures Written(u, Encode(f)).rx == u.rx + (if u.txMode then [] else Encode(f))
      + match Reply(u.servos, f) case Some(p) => Encode(Frame(f.id, 0, p)) case None => []
  {
    hide Effect, Reply, Encode;
    assert [] + Encode(f) == Encode(f) + [];
    CutOne(f, []);
    assert CutFrames([]) == Cut([], 0, []);
    var v := u.(rx := if u.txMode then u.rx else u.rx + Encode(f));
    assert DispatchAll(Dispatched(v, f), [f][1..]) == Dispatched(v, f);
  }
}
