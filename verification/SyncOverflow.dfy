/**
 Sync writes of more goals than their one-byte length can count: the builder of
 core/src/servo/Sts3215Frame.cpp against the receiver of core/src/sim/SimUart.cpp.
 */
module SyncOverflow {
  import opened Prelude
  import opened ServoFrame
  import opened ServoRegisters
  import opened SimUart
  import opened ServoBus

  // ----- When no frame is ever taken again

  /** The length byte of a sync write. */
  function WrappedLength(goals: Goals): byte { (3 * |goals| + 4) % 256 }

  /** The byte that a wrapped length makes the receiver take for the checksum is not it, or there is no room for one. */
  predicate Misread(goals: Goals)
    requires |goals| > 83
  {
    GoalBytesSize(goals);
    var n, params := WrappedLength(goals) as int, SyncCmd(goals).params;
    n < 2 || params[n - 2] != Checksum(BROADCAST, n, SYNC_WRITE, params[..n - 2])
  }

  lemma MisreadIsWedged(goals: Goals)
    requires |goals| > 83
    ensures Misread(goals) <==> Wedged(Encode(SyncCmd(goals)))
    ensures !Misread(goals) ==> Complete(Encode(SyncCmd(goals)))
  {
    hide Checksum;
    GoalBytesSize(goals);
    var n, params, e := WrappedLength(goals) as int, SyncCmd(goals).params, Encode(SyncCmd(goals));
    assert e[2] == BROADCAST && e[3] as int == n && e[4] == SYNC_WRITE && |e| == |params| + 6;
    if n >= 2 {
      assert e[5..n + 3] == params[..n - 2] && e[n + 3] == params[n - 2];
    }
  }

  /**
   Beyond 83 goals, exactly when no later byte is ever taken as part of a frame: the
   length byte has wrapped, and at the place it points to there is no valid checksum.
   */
  lemma SyncOverflowIff(goals: Goals)
    requires |goals| > 83
    ensures (forall later :: CutFrames(Encode(SyncCmd(goals)) + later).frames == []) <==> Misread(goals)
  {
    hide Encode, CutFrames, Misread;
    MisreadIsWedged(goals);
    var e := Encode(SyncCmd(goals));
    if Misread(goals) {
      forall later ensures CutFrames(e + later).frames == [] { WedgedForever(e, later); }
    } else {
      CutComplete(e);
      assert e + [] == e;
    }
  }

  lemma CutComplete(buf: seq<byte>)
    requires Complete(buf)
    ensures CutFrames(buf).frames != []
  {
  }

  /** One goal more than fits always is such a case, the length byte being 0. */
  lemma SyncOverflowWedges(goals: Goals, later: seq<byte>)
    requires |goals| == 84
    ensures CutFrames(Encode(SyncCmd(goals)) + later).frames == []
  {
    hide Encode, CutFrames, Checksum, SyncCmd;
    assert WrappedLength(goals) == 0;
    SyncOverflowIff(goals);
  }

  function WrittenAll(u: Uart, writes: seq<seq<byte>>): Uart
    decreases |writes|
  {
    if writes == [] then u else WrittenAll(Written(u, writes[0]), writes[1..])
  }

  lemma WedgedWrite(u: Uart, data: seq<byte>)
    requires Wedged(u.txAccum)
    ensures Wedged(Written(u, data).txAccum) && Written(u, data).servos == u.servos
  {
    WedgedForever(u.txAccum, data);
    var buf, more := u.txAccum, u.txAccum + data;
    if buf[3] >= 2 { assert more[5..FrameSize(buf) - 1] == buf[5..FrameSize(buf) - 1]; }
  }

  lemma {:induction false} WedgedWrites(u: Uart, writes: seq<seq<byte>>)
    requires Wedged(u.txAccum)
    ensures WrittenAll(u, writes).servos == u.servos
    decreases |writes|
  {
    hide Written, Wedged;
    if writes != [] {
      WedgedWrite(u, writes[0]);
      WedgedWrites(Written(u, writes[0]), writes[1..]);
    }
  }

  /**
   After such a sync write, made from quiet buffers, nothing that is written later
   changes any register: neither a speed of zero nor a torque switch of an emergency stop lands.
   */
  lemma OverflowSilences(u: Uart, goals: Goals, writes: seq<seq<byte>>)
    requires u.txAccum == [] && |goals| > 83 && Misread(goals)
    ensures SyncSent(u, goals).servos == u.servos
    ensures WrittenAll(SyncSent(u, goals).(txMode := true), writes).servos == u.servos
  {
    MisreadIsWedged(goals);
    hide Encode, Misread, Wedged;
    var e := Encode(SyncCmd(goals));
    WedgedForever(e, []);
    assert e + [] == e && [] + e == e;
    WedgedWrites(SyncSent(u, goals).(txMode := true), writes);
  }

  // ----- When every later frame is taken

  /** Goals as the module servo gate passes them on: servos 1 to 12, positions of twelve bits. */
  predicate FromGate(goals: Goals) { forall g | g in goals :: 1 <= g.0 <= 12 && g.1 < 4096 }

  /** The last byte of a sync write. */
  function SyncChecksum(goals: Goals): byte {
    Checksum(BROADCAST, WrappedLength(goals), SYNC_WRITE, SyncCmd(goals).params)
  }

  /** Only the low byte of a position can be FF. */
  lemma {:induction false} OnlyLowBytes(goals: Goals)
    requires FromGate(goals)
    ensures |GoalBytes(goals)| == 3 * |goals|
    ensures forall i | 0 <= i < |GoalBytes(goals)| && GoalBytes(goals)[i] == 0xFF :: i % 3 == 1
    decreases |goals|
  {
    if goals != [] {
      var n := |goals| - 1;
      var init := GoalBytes(goals[..n]);
      OnlyLowBytes(goals[..n]);
      assert goals[n] in goals;
      var last := [goals[n].0] + WordBytes(goals[n].1);
      assert GoalBytes(goals) == init + last;
      assert last[0] != 0xFF && last[2] != 0xFF;
      forall i | 0 <= i < |init + last| && (init + last)[i] == 0xFF ensures i % 3 == 1 {
        if i < |init| { assert init[i] == 0xFF; } else { assert i == 3 * n + 1; }
      }
    }
  }

  /** No two FF bytes in a row. */
  predicate NoHeaders(buf: seq<byte>) { forall i | 0 <= i < |buf| - 1 :: buf[i] != 0xFF || buf[i + 1] != 0xFF }

  lemma {:induction false} CutNoHeaders(buf: seq<byte>)
    requires buf != [] && NoHeaders(buf)
    ensures CutFrames(buf) == Cut([], |buf| - 1, [buf[|buf| - 1]])
    decreases |buf|
  {
    if |buf| > 1 {
      assert !HasHeader(buf) && NextTurn(buf).Drop?;
      CutNoHeaders(buf[1..]);
    }
  }

  lemma EncodedNoHeaders(goals: Goals, k: nat)
    requires FromGate(goals) && goals != [] && 5 <= k < |Encode(SyncCmd(goals))|
    ensures NoHeaders(Encode(SyncCmd(goals))[k..])
  {
    hide Checksum;
    OnlyLowBytes(goals);
    var params, e := SyncCmd(goals).params, Encode(SyncCmd(goals));
    forall i | 5 <= i < |e| - 1 && e[i] == 0xFF ensures i % 3 == 2 && i < |e| - 2 {
      assert e[i] == params[i - 5];
      if i >= 7 { assert params[i - 5] == GoalBytes(goals)[i - 7]; }
    }
    hide Encode;
    forall i | 0 <= i < |e[k..]| - 1 ensures e[k..][i] != 0xFF || e[k..][i + 1] != 0xFF {
      assert e[k..][i] == e[k + i] && e[k..][i + 1] == e[k + i + 1];
    }
  }

  /** Past the shorter frame that a wrapped length makes, the receiver drops all but the last byte. */
  lemma OverflowLeaves(goals: Goals)
    requires |goals| > 83 && FromGate(goals) && !Misread(goals)
    ensures CutFrames(Encode(SyncCmd(goals))).rest == [SyncChecksum(goals)]
  {
    MisreadIsWedged(goals);
    GoalBytesSize(goals);
    var n, e := WrappedLength(goals) as int, Encode(SyncCmd(goals));
    assert |e| == 3 * |goals| + 8 && e[3] as int == n && e[|e| - 1] == SyncChecksum(goals);
    hide Checksum, Misread, Encode, SyncChecksum;
    EncodedNoHeaders(goals, n + 4);
    CutNoHeaders(e[n + 4..]);
    assert NextTurn(e).Take? && NextTurn(e).size == n + 4;
  }

  /**
   After a sync write of more than 83 goals from the gate, every later frame is taken
   exactly if a valid checksum stands where the wrapped length points, and the write's
   own checksum is not FF, which would read as the first byte of the next header.
   */
  lemma OverflowResumesIff(goals: Goals)
    requires |goals| > 83 && FromGate(goals)
    ensures var rest := CutFrames(Encode(SyncCmd(goals))).rest;
      (forall f: Frame | |f.params| <= MAX_PARAMS :: f in CutFrames(rest + Encode(f)).frames)
      <==> !Misread(goals) && SyncChecksum(goals) != 0xFF
  {
    var e := Encode(SyncCmd(goals));
    var rest := CutFrames(e).rest;
    if Misread(goals) {
      MisreadIsWedged(goals);
      WedgedForever(e, []);
      assert e + [] == e;
    } else {
      OverflowLeaves(goals);
      CutNoHeaders([SyncChecksum(goals)]);
    }
    ResumesIff(rest);
  }

  lemma DispatchOne(u: Uart, f: Frame)
    ensures DispatchAll(u, [f]) == Dispatched(u, f)
  {
    assert [f][1..] == [];
  }

  /** Then the next write has its effect, as on a quiet line. */
  lemma OverflowResumes(u: Uart, goals: Goals, f: Frame)
    requires u.txAccum == [] && |goals| > 83 && FromGate(goals) && |f.params| <= MAX_PARAMS
    requires !Misread(goals) && SyncChecksum(goals) != 0xFF
    ensures Written(SyncSent(u, goals).(txMode := true), Encode(f)).servos == Effect(SyncSent(u, goals).servos, f)
    ensures Written(SyncSent(u, goals).(txMode := true), Encode(f)).txAccum == []
  {
    hide Encode, CutFrames, Misread, SyncChecksum, Effect;
    OverflowLeaves(goals);
    var e := Encode(SyncCmd(goals));
    assert [] + e == e;
    CleanResumes([SyncChecksum(goals)], f);
    var w := SyncSent(u, goals).(txMode := true);
    DispatchOne(w.(malformed := w.malformed + 1), f);
  }

  /** A trailing FF makes the id of the next write its length: a write to servo 1 blocks the receiver for good. */
  lemma TrailingSilences(u: Uart, f: Frame, writes: seq<seq<byte>>)
    requires u.txAccum == [0xFF] && f.id < 2
    ensures WrittenAll(u, [Encode(f)] + writes).servos == u.servos
  {
    var buf := [0xFF] + Encode(f);
    assert buf[0] == 0xFF && buf[1] == 0xFF && buf[3] == f.id && Wedged(buf);
    WedgedForever(buf, []);
    assert buf + [] == buf;
    var u1 := Written(u, Encode(f));
    assert u1.txAccum == buf && u1.servos == u.servos;
    assert ([Encode(f)] + writes)[1..] == writes;
    WedgedWrites(u1, writes);
  }

  // ----- Such a list

  lemma {:induction false} GoalBytesAppend(a: Goals, b: Goals)
    ensures GoalBytes(a + b) == GoalBytes(a) + GoalBytes(b)
    decreases |b|
  {
    if b == [] {
      assert a + b == a;
    } else {
      assert (a + b)[..|a + b| - 1] == a + b[..|b| - 1];
      GoalBytesAppend(a, b[..|b| - 1]);
    }
  }

  /** Servo 1 to position 0, `n` times. */
  function Zeroes(n: nat): Goals { seq(n, i => (1, 0)) }

  lemma {:induction false} ZeroesSum(n: nat)
    ensures Sum(GoalBytes(Zeroes(n))) == n && |GoalBytes(Zeroes(n))| == 3 * n
    decreases n
  {
    if n > 0 {
      ZeroesSum(n - 1);
      assert Zeroes(n)[..n - 1] == Zeroes(n - 1);
      SumAppend(GoalBytes(Zeroes(n - 1)), [1, 0, 0]);
      SumThree(1, 0, 0);
      assert GoalBytes(Zeroes(n)) == GoalBytes(Zeroes(n - 1)) + [1, 0, 0];
    }
  }

  lemma SumThree(a: byte, b: byte, c: byte)
    ensures Sum([a, b, c]) == a as int + b as int + c as int && Sum([a, b]) == a as int + b as int
  {
    assert [a][..0] == [] && Sum([a]) == a as int;
    assert [a, b][..1] == [a] && Sum([a, b]) == a as int + b as int;
    assert [a, b, c][..2] == [a, b];
  }

  /** 92 goals of which the receiver takes a shorter frame, and whose own checksum is FF. */
  lemma TrailingExample() returns (goals: Goals)
    ensures |goals| == 92 && FromGate(goals) && !Misread(goals) && SyncChecksum(goals) == 0xFF
  {
    hide Sum, GoalBytes;
    var mid: Goals := [(1, 51), (1, 172)];
    goals := Zeroes(6) + mid + Zeroes(84);
    ZeroesSum(6);
    ZeroesSum(84);
    MidBytes();
    GoalBytesAppend(Zeroes(6), mid);
    GoalBytesAppend(Zeroes(6) + mid, Zeroes(84));
    var head: seq<byte> := [GOAL_POSITION, 2];
    var front, all := GoalBytes(Zeroes(6)), SyncCmd(goals).params;
    var bytes: seq<byte> := [1, 51, 0, 1, 172, 0];
    assert all == head + front + bytes + GoalBytes(Zeroes(84));
    assert all[..22] == head + front + [1, 51] && all[22] == 0;
    SumThree(GOAL_POSITION, 2, 0);
    SumThree(1, 51, 0);
    SumThree(1, 172, 0);
    SumAppend(head, front);
    SumAppend(head + front, [1, 51]);
    SumAppend([1, 51, 0], [1, 172, 0]);
    assert [1, 51, 0] + [1, 172, 0] == bytes;
    SumAppend(head + front, bytes);
    SumAppend(head + front + bytes, GoalBytes(Zeroes(84)));
  }

  lemma MidBytes()
    ensures GoalBytes([(1, 51), (1, 172)]) == [1, 51, 0, 1, 172, 0]
  {
    var mid: Goals := [(1, 51), (1, 172)];
    assert mid[..1] == [(1, 51)] && mid[..1][..0] == [];
  }
}
