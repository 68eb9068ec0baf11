/**
 The byte-level frame observer of the ESP32 servo relay:
 firmware/servo-relay/main/frame_observer.c, with the counters of counters.c.
 Counters are unbounded here; the 32-bit wrap is not modelled.
 */
module FrameObserver {
  import opened Prelude
  import opened ServoFrame
  import SimUart

  const TIMEOUT_US := 5000
  const MAX_LENGTH := 64

  datatype Phase = HuntFF1 | HuntFF2 | ReadId | ReadLength | ReadPayload

  datatype Dir = Dir(phase: Phase, id: byte, length: byte, remaining: byte, sum: nat, lastByteUs: int)

  datatype Counters = Counters(ok: nat, badChecksum: nat, truncated: nat, resync: nat, bytes: nat)

  /** One direction of the line: its decoder and its counters. */
  datatype Line = Line(dir: Dir, ctr: Counters)

  function Reset(d: Dir): Dir { Dir(HuntFF1, 0, 0, 0, 0, d.lastByteUs) }

  function FeedByte(l: Line, b: byte): Line {
    var d, c := l.dir, l.ctr;
    match d.phase
    case HuntFF1 => if b == 0xFF then l.(dir := d.(phase := HuntFF2)) else l
    case HuntFF2 => l.(dir := d.(phase := if b == 0xFF then ReadId else HuntFF1))
    case ReadId => l.(dir := d.(id := b, sum := b, phase := ReadLength))
    case ReadLength =>
      if b < 2 || b as int > MAX_LENGTH then Line(Reset(d), c.(truncated := c.truncated + 1))
      else l.(dir := d.(length := b, sum := d.sum + b, remaining := b, phase := ReadPayload))
    case ReadPayload =>
      if d.remaining > 1 then l.(dir := d.(sum := d.sum + b, remaining := d.remaining - 1))
      else Line(Reset(d), if b == 255 - d.sum % 256 then c.(ok := c.ok + 1) else c.(badChecksum := c.badChecksum + 1))
  }

  function FeedBytes(l: Line, bytes: seq<byte>): Line
    decreases |bytes|
  {
    if bytes == [] then l else FeedBytes(FeedByte(l, bytes[0]), bytes[1..])
  }

  /** A feed at time `now`: all bytes counted, then decoded, then stamped. */
  function Feed(l: Line, bytes: seq<byte>, now: int): Line {
    var r := FeedBytes(l.(ctr := l.ctr.(bytes := l.ctr.bytes + |bytes|)), bytes);
    if bytes == [] then r else r.(dir := r.dir.(lastByteUs := now))
  }

  function Tick(l: Line, now: int): Line {
    if l.dir.phase != HuntFF1 && (now - l.dir.lastByteUs) % 0x1_0000_0000_0000_0000 > TIMEOUT_US then
      Line(Reset(l.dir), l.ctr.(truncated := l.ctr.truncated + 1, resync := l.ctr.resync + 1))
    else l
  }

  class Observer {
    var lines: seq<Line>
    var nowUs: int

    ghost predicate Valid() reads this { |lines| == 2 }

    constructor ()
      ensures Valid() && nowUs == 0 && lines == [FRESH, FRESH]
    {
      lines := seq(2, i => Line(Dir(HuntFF1, 0, 0, 0, 0, 0), Counters(0, 0, 0, 0, 0)));
      nowUs := 0;
    }

    /** Any direction other than 1 counts as direction 0. */
    method FeedDir(dir: int, buf: seq<byte>)
      requires Valid()
      modifies this
      ensures Valid() && nowUs == old(nowUs)
      ensures var d := if dir == 1 then 1 else 0; lines == old(lines)[d := Feed(old(lines)[d], buf, nowUs)]
    {
      var d := if dir == 1 then 1 else 0;
      var l := lines[d].(ctr := lines[d].ctr.(bytes := lines[d].ctr.bytes + |buf|));
      ghost var start := l;
      for i := 0 to |buf|
        invariant FeedBytes(l, buf[i..]) == FeedBytes(start, buf)
      {
        l := FeedByte(l, buf[i]);
      }
      if |buf| > 0 { l := l.(dir := l.dir.(lastByteUs := nowUs)); }
      lines := lines[d := l];
    }

    method TickAll(now: int)
      requires Valid()
      modifies this
      ensures Valid() && nowUs == now
      ensures lines == [Tick(old(lines)[0], now), Tick(old(lines)[1], now)]
    {
      nowUs := now;
      for i := 0 to 2
        invariant Valid() && nowUs == now
        invariant forall k | 0 <= k < 2 :: lines[k] == if k < i then Tick(old(lines)[k], now) else old(lines)[k]
      {
        var d := lines[i].dir;
        if d.phase != HuntFF1 && (now - d.lastByteUs) % 0x1_0000_0000_0000_0000 > TIMEOUT_US {
          lines := lines[i := Line(Reset(d),
              lines[i].ctr.(truncated := lines[i].ctr.truncated + 1, resync := lines[i].ctr.resync + 1))];
        }
      }
    }
  }

  // ----- Splitting a feed is invisible

  lemma {:induction false} FeedBytesAppend(l: Line, a: seq<byte>, b: seq<byte>)
    ensures FeedBytes(l, a + b) == FeedBytes(FeedBytes(l, a), b)
    decreases |a|
  {
    if a == [] {
      assert a + b == b;
    } else {
      assert (a + b)[1..] == a[1..] + b;
      FeedBytesAppend(FeedByte(l, a[0]), a[1..], b);
    }
  }

  /** Decoding neither reads nor writes the byte total and the time stamp. */
  lemma {:induction false} FeedBytesFrame(l: Line, bytes: seq<byte>, n: nat, t: int)
    ensures var l' := Line(l.dir.(lastByteUs := t), l.ctr.(bytes := n));
      var r := FeedBytes(l, bytes);
      FeedBytes(l', bytes) == Line(r.dir.(lastByteUs := t), r.ctr.(bytes := n))
      && r.ctr.bytes == l.ctr.bytes && r.dir.lastByteUs == l.dir.lastByteUs
    decreases |bytes|
  {
    if bytes != [] { FeedBytesFrame(FeedByte(l, bytes[0]), bytes[1..], n, t); }
  }

  lemma FeedSplit(l: Line, a: seq<byte>, b: seq<byte>, now: int)
    ensures Feed(l, a + b, now) == Feed(Feed(l, a, now), b, now)
  {
    hide FeedByte;
    var n := l.ctr.bytes + |a| + |b|;
    FeedBytesAppend(l, a, b);
    FeedBytesFrame(l, a + b, n, l.dir.lastByteUs);
    FeedBytesFrame(l, a, l.ctr.bytes + |a|, l.dir.lastByteUs);
    var m := FeedBytes(l, a);
    FeedBytesFrame(m, b, n, l.dir.lastByteUs);
    FeedBytesFrame(m, b, n, now);
    if a == [] { assert a + b == b; }
    if b == [] { assert a + b == a; }
  }

  // ----- What is counted

  lemma {:induction false} PayloadSums(l: Line, p: seq<byte>)
    requires l.dir.phase == ReadPayload && l.dir.remaining as int > |p|
    ensures FeedBytes(l, p) == l.(dir := l.dir.(sum := l.dir.sum + Sum(p), remaining := l.dir.remaining - |p|))
    decreases |p|
  {
    if p != [] {
      var init, last := p[..|p| - 1], p[|p| - 1];
      PayloadSums(l, init);
      FeedBytesAppend(l, init, [last]);
      assert p == init + [last];
      assert FeedBytes(FeedBytes(l, init), [last]) == FeedByte(FeedBytes(l, init), last);
    }
  }

  predicate Hunting(l: Line) { l.dir == Reset(l.dir) }

  /** Sizes that both the codec and the observer allow, header in place. */
  predicate Framed(buf: seq<byte>) {
    |buf| >= 6 && HasHeader(buf) && 2 <= buf[3] && buf[3] as int <= MAX_LENGTH && |buf| == FrameSize(buf)
  }

  /** A framed buffer counts once: as good exactly when the codec accepts it, as a bad checksum otherwise. */
  lemma ObservesFrame(l: Line, buf: seq<byte>)
    requires Hunting(l) && Framed(buf)
    ensures FeedBytes(l, buf)
         == l.(ctr := if Complete(buf) then l.ctr.(ok := l.ctr.ok + 1)
                      else l.ctr.(badChecksum := l.ctr.badChecksum + 1))
  {
    var n := |buf|;
    var head, body := buf[..4], buf[4..n - 1];
    var h := l.(dir := l.dir.(id := buf[2], length := buf[3], remaining := buf[3],
        sum := buf[2] as int + buf[3] as int, phase := ReadPayload));
    assert FeedBytes(l, head) == h by { HeaderRead(l, buf[2], buf[3]); assert head == [0xFF, 0xFF, buf[2], buf[3]]; }
    PayloadSums(h, body);
    FeedBytesAppend(l, head, body);
    FeedBytesAppend(l, head + body, [buf[n - 1]]);
    assert buf == head + body + [buf[n - 1]];
    var q := FeedBytes(h, body);
    assert FeedBytes(q, [buf[n - 1]]) == FeedByte(q, buf[n - 1]);
    SumFront(body);
    assert body[1..] == buf[5..n - 1];
  }

  lemma HeaderRead(l: Line, id: byte, length: byte)
    requires Hunting(l) && 2 <= length && length as int <= MAX_LENGTH
    ensures FeedBytes(l, [0xFF, 0xFF, id, length])
         == l.(dir := l.dir.(id := id, length := length, remaining := length, sum := id as int + length as int,
             phase := ReadPayload))
  {
    var l1 := FeedByte(l, 0xFF);
    var l2 := FeedByte(l1, 0xFF);
    var l3 := FeedByte(l2, id);
    var l4 := FeedByte(l3, length);
    calc {
      FeedBytes(l, [0xFF, 0xFF, id, length]);
      { assert [0xFF, 0xFF, id, length][1..] == [0xFF, id, length]; }
      FeedBytes(l1, [0xFF, id, length]);
      { assert [0xFF, id, length][1..] == [id, length]; }
      FeedBytes(l2, [id, length]);
      { assert [id, length][1..] == [length]; }
      FeedBytes(l3, [length]);
      { assert [length][1..] == []; }
      FeedBytes(l4, []);
    }
  }

  lemma {:induction false} SumFront(s: seq<byte>)
    requires s != []
    ensures Sum(s) == s[0] + Sum(s[1..])
    decreases |s|
  {
    if |s| > 1 {
      SumFront(s[..|s| - 1]);
      assert s[..|s| - 1][1..] == s[1..][..|s| - 2];
    }
  }

  /** Back-to-back frames of observable size: one good frame counted for each, and no error. */
  lemma {:induction false} CountsEveryFrame(l: Line, fs: seq<Frame>)
    requires Hunting(l) && forall f | f in fs :: |f.params| + 2 <= MAX_LENGTH
    ensures FeedBytes(l, SimUart.EncodeAll(fs)) == l.(ctr := l.ctr.(ok := l.ctr.ok + |fs|))
    decreases |fs|
  {
    if fs != [] {
      hide FeedByte, Checksum;
      var buf := Encode(fs[0]);
      assert buf + [] == buf;
      EncodeComplete(fs[0], []);
      ObservesFrame(l, buf);
      FeedBytesAppend(l, buf, SimUart.EncodeAll(fs[1..]));
      CountsEveryFrame(FeedBytes(l, buf), fs[1..]);
    }
  }

  // ----- No frame is counted out of fewer than six bytes

  datatype Input = Bytes(bytes: seq<byte>, at: int) | Clock(now: int)

  function Observed(l: Line, inputs: seq<Input>): Line
    decreases |inputs|
  {
    if inputs == [] then l
    else match inputs[0]
      case Bytes(bs, at) => Observed(Feed(l, bs, at), inputs[1..])
      case Clock(now) => Observed(Tick(l, now), inputs[1..])
  }

  /** Bytes of the frame being read that have been seen so far. */
  function Seen(d: Dir): int {
    match d.phase
    case HuntFF1 => 0
    case HuntFF2 => 1
    case ReadId => 2
    case ReadLength => 3
    case ReadPayload => 4 + d.length as int - d.remaining as int
  }

  /** `pending` bytes are counted already but not yet decoded. */
  predicate Accounted(l: Line, pending: nat) {
    && 6 * (l.ctr.ok + l.ctr.badChecksum) + Seen(l.dir) + pending <= l.ctr.bytes
    && (l.dir.phase == ReadPayload ==> 2 <= l.dir.length && 1 <= l.dir.remaining && l.dir.remaining <= l.dir.length)
  }

  lemma {:induction false} FeedAccounted(l: Line, bytes: seq<byte>)
    requires Accounted(l, |bytes|)
    ensures Accounted(FeedBytes(l, bytes), 0)
    decreases |bytes|
  {
    if bytes != [] {
      assert Accounted(FeedByte(l, bytes[0]), |bytes| - 1);
      FeedAccounted(FeedByte(l, bytes[0]), bytes[1..]);
    }
  }

  /** Over any mix of feeds and clock ticks, whatever the bytes. */
  lemma {:induction false} SixBytesPerFrame(l: Line, inputs: seq<Input>)
    requires Accounted(l, 0)
    ensures Accounted(Observed(l, inputs), 0)
    ensures 6 * (Observed(l, inputs).ctr.ok + Observed(l, inputs).ctr.badChecksum) <= Observed(l, inputs).ctr.bytes
    decreases |inputs|
  {
    if inputs != [] {
      match inputs[0]
      case Bytes(bs, at) =>
        FeedAccounted(l.(ctr := l.ctr.(bytes := l.ctr.bytes + |bs|)), bs);
        SixBytesPerFrame(Feed(l, bs, at), inputs[1..]);
      case Clock(now) =>
        SixBytesPerFrame(Tick(l, now), inputs[1..]);
    }
  }

  // ----- Recovery after a broken frame

  const FRESH := Line(Dir(HuntFF1, 0, 0, 0, 0, 0), Counters(0, 0, 0, 0, 0))

  /** Bytes fed so far, and the time of the last feed that had any. */
  function Fed(inputs: seq<Input>): nat {
    if inputs == [] then 0
    else Fed(inputs[..|inputs| - 1]) + match inputs[|inputs| - 1] case Bytes(bs, _) => |bs| case Clock(_) => 0
  }

  function LastFed(inputs: seq<Input>): int {
    if inputs == [] then 0
    else
      match inputs[|inputs| - 1]
      case Bytes(bs, at) => if bs == [] then LastFed(inputs[..|inputs| - 1]) else at
      case Clock(_) => LastFed(inputs[..|inputs| - 1])
  }

  lemma {:induction false} ObservedLast(l: Line, inputs: seq<Input>)
    requires inputs != []
    ensures var before := Observed(l, inputs[..|inputs| - 1]);
      Observed(l, inputs) == match inputs[|inputs| - 1]
        case Bytes(bs, at) => Feed(before, bs, at)
        case Clock(now) => Tick(before, now)
    decreases |inputs|
  {
    hide Feed, Tick;
    if |inputs| == 1 {
      assert inputs[1..] == [];
    } else {
      var l' := match inputs[0] case Bytes(bs, at) => Feed(l, bs, at) case Clock(now) => Tick(l, now);
      ObservedLast(l', inputs[1..]);
      assert inputs[1..][..|inputs| - 2] == inputs[..|inputs| - 1][1..];
    }
  }

  /** No field of the decoder is left over from an earlier frame before the id is read. */
  predicate Clean(d: Dir) {
    d.phase in {HuntFF1, HuntFF2, ReadId} ==> d.id == 0 && d.length == 0 && d.remaining == 0 && d.sum == 0
  }

  lemma {:induction false} FeedClean(l: Line, bytes: seq<byte>)
    requires Clean(l.dir)
    ensures Clean(FeedBytes(l, bytes).dir)
    decreases |bytes|
  {
    if bytes != [] { FeedClean(FeedByte(l, bytes[0]), bytes[1..]); }
  }

  /** Over every run: the byte total and the time stamp are those of the feeds. */
  lemma {:induction false} CountsEveryByte(inputs: seq<Input>)
    ensures var l := Observed(FRESH, inputs);
      Clean(l.dir) && l.ctr.bytes == Fed(inputs) && l.dir.lastByteUs == LastFed(inputs)
    decreases |inputs|
  {
    if inputs != [] {
      hide FeedByte;
      var init := inputs[..|inputs| - 1];
      CountsEveryByte(init);
      ObservedLast(FRESH, inputs);
      match inputs[|inputs| - 1]
      case Clock(_) =>
      case Bytes(bs, at) =>
        var l := Observed(FRESH, init);
        var m := l.(ctr := l.ctr.(bytes := l.ctr.bytes + |bs|));
        FeedClean(m, bs);
        FeedBytesFrame(m, bs, 0, 0);
    }
  }

  /**
   A clock tick more than five milliseconds after the last byte puts the decoder back on a frame boundary,
   whatever was fed before: every well-formed frame that follows is counted, none as an error. A frame that was
   cut short counts once as truncated and once as a resync. A tick within the five milliseconds does nothing.
   */
  lemma SilenceRecovers(inputs: seq<Input>, now: int, fs: seq<Frame>, at: int)
    requires forall f | f in fs :: |f.params| + 2 <= MAX_LENGTH
    ensures var l := Observed(FRESH, inputs);
      var r := Feed(Tick(l, now), SimUart.EncodeAll(fs), at);
      var cut := if Seen(l.dir) == 0 then 0 else 1;
      if (now - LastFed(inputs)) % 0x1_0000_0000_0000_0000 > 5000 then
        && r.ctr.ok == l.ctr.ok + |fs| && r.ctr.badChecksum == l.ctr.badChecksum
        && r.ctr.truncated == l.ctr.truncated + cut && r.ctr.resync == l.ctr.resync + cut
        && r.ctr.bytes == Fed(inputs) + |SimUart.EncodeAll(fs)|
      else Tick(l, now) == l
  {
    hide FeedByte, SimUart.EncodeAll;
    CountsEveryByte(inputs);
    var l := Observed(FRESH, inputs);
    SeenNothing(inputs);
    if (now - LastFed(inputs)) % 0x1_0000_0000_0000_0000 > 5000 {
      var t := Tick(l, now);
      var all := SimUart.EncodeAll(fs);
      CountsEveryFrame(t.(ctr := t.ctr.(bytes := t.ctr.bytes + |all|)), fs);
    }
  }

  lemma SeenNothing(inputs: seq<Input>)
    ensures var d := Observed(FRESH, inputs).dir; Seen(d) == 0 <==> d.phase == HuntFF1
  {
    SixBytesPerFrame(FRESH, inputs);
  }

  /** Between frames, bytes up to the next FF are passed over; so is a lone FF with the byte behind it. */
  lemma {:induction false} NoiseSkipped(l: Line, noise: seq<byte>)
    requires Hunting(l) && 0xFF !in noise
    ensures FeedBytes(l, noise) == l
    ensures forall b: byte | b != 0xFF :: FeedBytes(l, noise + [0xFF, b]) == l
    decreases |noise|
  {
    if noise == [] {
      forall b: byte | b != 0xFF ensures FeedBytes(l, [0xFF, b]) == l {
        assert [0xFF, b] == [0xFF] + [b];
        FeedBytesAppend(l, [0xFF], [b]);
        assert FeedBytes(FeedByte(l, 0xFF), [b]) == FeedByte(FeedByte(l, 0xFF), b);
      }
      assert forall b: byte :: noise + [0xFF, b] == [0xFF, b];
    } else {
      NoiseSkipped(l, noise[1..]);
      assert forall b: byte :: (noise + [0xFF, b])[1..] == noise[1..] + [0xFF, b];
    }
  }

  /** A length outside 2..64 ends the frame at its fourth byte, counted as truncated and not as a resync. */
  lemma BadLength(l: Line, id: byte, length: byte)
    requires Hunting(l)
    ensures length < 2 || length > 64 <==>
            FeedBytes(l, [0xFF, 0xFF, id, length]) == l.(ctr := l.ctr.(truncated := l.ctr.truncated + 1))
  {
    if 2 <= length <= 64 {
      HeaderRead(l, id, length);
    } else {
      var l3 := FeedByte(FeedByte(FeedByte(l, 0xFF), 0xFF), id);
      FeedBytesAppend(l, [0xFF], [0xFF, id, length]);
      FeedBytesAppend(FeedByte(l, 0xFF), [0xFF], [id, length]);
      FeedBytesAppend(FeedByte(FeedByte(l, 0xFF), 0xFF), [id], [length]);
      assert [0xFF, 0xFF, id, length] == [0xFF] + [0xFF, id, length];
      assert [0xFF, id, length] == [0xFF] + [id, length];
      assert [id, length] == [id] + [length];
      assert FeedBytes(l3, [length]) == FeedByte(l3, length);
    }
  }
}
