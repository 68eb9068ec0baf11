/**
 The incremental NATS parser of the core daemon: core/src/nats/Frame.cpp and the drain
 loop of core/src/nats/Connection.cpp. Frames follow the INFO, MSG, PING, PONG, +OK and
 -ERR sections of the NATS Client Protocol.
 */
module NatsParser {
  import opened Prelude

  datatype Kind = Info | Msg | Ping | Pong | Ok | Err

  datatype Frame = Frame(kind: Kind, subject: string, sid: string, reply: string, payload: string)

  /** `size_t` arithmetic is modulo 2^64. */
  const SIZE_MOD := 0x1_0000_0000_0000_0000

  datatype Parser = Parser(buf: string, len: nat, msg: Frame, waiting: bool)

  const EMPTY := Frame(Info, "", "", "", "")

  const FRESH := Parser("", 0, EMPTY, false)

  /** NeedMore and Stall are both an empty return; Crash is an exception that nothing catches. */
  datatype Outcome = Got(frame: Frame) | NeedMore | Stall | Crash

  // ----- Lines and tokens

  function FindCrlf(s: string): Option<nat> {
    if |s| < 2 then None
    else if s[0] == '\r' && s[1] == '\n' then Some(0)
    else match FindCrlf(s[1..])
      case None => None
      case Some(i) => Some(i + 1)
  }

  predicate IsSpace(c: char) { c == ' ' || c == '\t' || c == '\n' || c == '\U{0B}' || c == '\U{0C}' || c == '\r' }

  function TokenLen(s: string): (n: nat)
    ensures n <= |s|
  {
    if s == "" || IsSpace(s[0]) then 0 else 1 + TokenLen(s[1..])
  }

  function Split(s: string): seq<string>
    decreases |s|
  {
    if s == "" then []
    else if IsSpace(s[0]) then Split(s[1..])
    else [s[..TokenLen(s)]] + Split(s[TokenLen(s)..])
  }

  predicate IsDigit(c: char) { '0' <= c <= '9' }

  function DigitRun(s: string): (n: nat)
    ensures n <= |s|
  {
    if s == "" || !IsDigit(s[0]) then 0 else 1 + DigitRun(s[1..])
  }

  function DigitValue(c: char): nat { if IsDigit(c) then c as int - '0' as int else 0 }

  function Value(digits: string): nat {
    if digits == "" then 0 else 10 * Value(digits[..|digits| - 1]) + DigitValue(digits[|digits| - 1])
  }

  /** `std::stoul` in base 10 on a token: sign, then digits, then anything; throws without digits or past 64 bits. */
  function Stoul(tok: string): Option<nat> {
    var neg := tok != "" && tok[0] == '-';
    var body := if tok != "" && (tok[0] == '-' || tok[0] == '+') then tok[1..] else tok;
    var digits := body[..DigitRun(body)];
    if digits == "" || Value(digits) >= SIZE_MOD then None
    else if neg then Some((SIZE_MOD - Value(digits)) % SIZE_MOD)
    else Some(Value(digits))
  }

  // ----- Next frame

  /** What a complete line amounts to. */
  datatype Line = Blank | Whole(frame: Frame) | Header(msg: Frame, len: nat) | BadArity | BadSize | Unknown

  function ReadLine(line: string): Line {
    if line == "" then Blank
    else if "INFO " <= line then Whole(EMPTY.(payload := line[5..]))
    else if line == "PING" then Whole(EMPTY.(kind := Ping))
    else if line == "PONG" then Whole(EMPTY.(kind := Pong))
    else if line == "+OK" then Whole(EMPTY.(kind := Ok))
    else if "-ERR " <= line then Whole(EMPTY.(kind := Err, payload := line[5..]))
    else if "MSG " <= line then
      var t := Split(line[4..]);
      if |t| < 3 || |t| > 4 then BadArity
      else
        match Stoul(t[|t| - 1])
        case None => BadSize
        case Some(n) => Header(Frame(Msg, t[0], t[1], if |t| == 4 then t[2] else "", ""), n)
    else Unknown
  }

  function Next(p: Parser): (r: (Parser, Outcome))
    ensures r.1.Got? ==> |r.0.buf| < |p.buf|
    ensures r.1.Stall? ==> |r.0.buf| < |p.buf|
    decreases |p.buf|
  {
    if p.waiting then Payload(p)
    else match FindCrlf(p.buf)
      case None => (p, NeedMore)
      case Some(i) =>
        CrlfInside(p.buf);
        var rest := p.(buf := p.buf[i + 2..]);
        match ReadLine(p.buf[..i])
        case Blank => (rest, Stall)
        case Whole(f) => (rest, Got(f))
        case BadArity => (rest, Stall)
        case BadSize => (rest, Crash)
        case Header(m, n) => Payload(Parser(rest.buf, n, m, true))
        case Unknown => Next(rest)
  }

  /** Takes `len + 2` bytes without looking at the last two; a size that wraps makes the copy throw. */
  function Payload(p: Parser): (r: (Parser, Outcome))
    ensures r.1.Got? ==> |r.0.buf| < |p.buf|
    ensures !r.1.Stall?
    ensures |r.0.buf| <= |p.buf|
  {
    if |p.buf| < (p.len + 2) % SIZE_MOD then (p, NeedMore)
    else if p.len + 2 >= SIZE_MOD then (p, Crash)
    else (Parser(p.buf[p.len + 2..], p.len, EMPTY, false), Got(p.msg.(payload := p.buf[..p.len])))
  }

  lemma {:induction false} CrlfInside(s: string)
    ensures FindCrlf(s).Some? ==> FindCrlf(s).value + 2 <= |s|
    decreases |s|
  {
    if |s| >= 2 && !(s[0] == '\r' && s[1] == '\n') { CrlfInside(s[1..]); }
  }

  // ----- Draining

  datatype Drained = Drained(frames: seq<Frame>, parser: Parser, end: Outcome)

  function Drain(p: Parser): Drained
    decreases |p.buf|
  {
    var (q, o) := Next(p);
    if o.Got? then var d := Drain(q); d.(frames := [o.frame] + d.frames)
    else Drained([], q, o)
  }

  function Feed(p: Parser, s: string): Parser { p.(buf := p.buf + s) }

  /** The frames handed on when the chunks arrive one after another. */
  function Received(p: Parser, chunks: seq<string>): seq<Frame>
    decreases |chunks|
  {
    if chunks == [] then []
    else
      var d := Drain(Feed(p, chunks[0]));
      if d.end.Crash? then d.frames else d.frames + Received(d.parser, chunks[1..])
  }

  class NatsParser {
    var state: Parser

    constructor ()
      ensures state == FRESH
    {
      state := FRESH;
    }

    method FeedBytes(data: string)
      modifies this
      ensures state == Feed(old(state), data)
    {
      state := state.(buf := state.buf + data);
    }

    method Pull() returns (o: Outcome)
      modifies this
      ensures (state, o) == Next(old(state))
      decreases |state.buf|
    {
      if state.waiting {
        o := TakePayload();
        return;
      }
      var i := Crlf(state.buf);
      if i.None? { return NeedMore; }
      CrlfInside(state.buf);
      var line := state.buf[..i.value];
      state := state.(buf := state.buf[i.value + 2..]);
      match ReadLine(line)
      case Blank => return Stall;
      case BadArity => return Stall;
      case BadSize => return Crash;
      case Whole(f) => return Got(f);
      case Header(m, n) =>
        state := state.(msg := m, len := n, waiting := true);
        o := TakePayload();
      case Unknown => o := Pull();
    }

    method TakePayload() returns (o: Outcome)
      modifies this
      ensures (state, o) == Payload(old(state))
    {
      if |state.buf| < (state.len + 2) % SIZE_MOD { return NeedMore; }
      if state.len + 2 >= SIZE_MOD { return Crash; }
      o := Got(state.msg.(payload := state.buf[..state.len]));
      state := Parser(state.buf[state.len + 2..], state.len, EMPTY, false);
    }

    /** One turn of the read loop: feed what was read, then pull until nothing comes. */
    method ReadTurn(data: string) returns (frames: seq<Frame>, end: Outcome)
      modifies this
      ensures Drained(frames, state, end) == Drain(Feed(old(state), data))
    {
      hide Next;
      FeedBytes(data);
      ghost var start := Drain(state);
      frames := [];
      while true
        invariant start == Drained(frames + Drain(state).frames, Drain(state).parser, Drain(state).end)
        decreases |state.buf|
      {
        end := Pull();
        if !end.Got? { return; }
        frames := frames + [end.frame];
      }
    }
  }

  method Crlf(s: string) returns (r: Option<nat>)
    ensures r == FindCrlf(s)
  {
    var i := 0;
    while i + 1 < |s|
      invariant i <= |s|
      invariant FindCrlf(s) == match FindCrlf(s[i..]) case None => None case Some(k) => Some(k + i)
    {
      if s[i] == '\r' && s[i + 1] == '\n' { return Some(i); }
      assert s[i..][1..] == s[i + 1..];
      i := i + 1;
    }
    r := None;
  }

  // ----- More bytes never change what was already decided

  lemma {:induction false} CrlfExtend(s: string, more: string)
    requires FindCrlf(s).Some?
    ensures FindCrlf(s + more) == FindCrlf(s)
    decreases |s|
  {
    if !(s[0] == '\r' && s[1] == '\n') {
      assert (s + more)[1..] == s[1..] + more;
      CrlfExtend(s[1..], more);
    }
  }

  lemma PayloadExtend(p: Parser, more: string)
    ensures var (q, o) := Payload(p);
      Payload(Feed(p, more)) == if o.NeedMore? then Payload(Feed(q, more)) else (Feed(q, more), o)
  {
    if p.len + 2 < SIZE_MOD && |p.buf| >= p.len + 2 {
      assert (p.buf + more)[p.len + 2..] == p.buf[p.len + 2..] + more;
      assert (p.buf + more)[..p.len] == p.buf[..p.len];
    }
  }

  lemma NextWaiting(p: Parser)
    ensures Payload(p).1.NeedMore? ==> Payload(p).0 == p
  {
  }

  lemma {:induction false} NextExtend(p: Parser, more: string)
    ensures var (q, o) := Next(p);
      Next(Feed(p, more)) == if o.NeedMore? then Next(Feed(q, more)) else (Feed(q, more), o)
    decreases |p.buf|
  {
    if p.waiting {
      PayloadExtend(p, more);
    } else if FindCrlf(p.buf).Some? {
      var i := FindCrlf(p.buf).value;
      CrlfInside(p.buf);
      CrlfExtend(p.buf, more);
      var rest := p.(buf := p.buf[i + 2..]);
      assert (p.buf + more)[i + 2..] == p.buf[i + 2..] + more;
      assert (p.buf + more)[..i] == p.buf[..i];
      hide ReadLine, FindCrlf;
      match ReadLine(p.buf[..i])
      case Header(m, n) => PayloadExtend(Parser(rest.buf, n, m, true), more); NextWaiting(Parser(rest.buf, n, m, true));
      case Unknown => NextExtend(rest, more);
      case _ =>
    }
  }

  lemma {:induction false} DrainExtend(p: Parser, more: string)
    ensures var d := Drain(p);
      Drain(Feed(p, more)) ==
        if d.end.NeedMore? then Prepend(d.frames, Drain(Feed(d.parser, more)))
        else Drained(d.frames, Feed(d.parser, more), d.end)
    decreases |p.buf|
  {
    hide Next;
    NextExtend(p, more);
    var (q, o) := Next(p);
    if o.Got? { DrainExtend(q, more); }
  }

  function Prepend(fs: seq<Frame>, d: Drained): Drained { d.(frames := fs + d.frames) }

  // ----- Arbitrary bytes: every chunking lies between two extremes

  /** The frames of a stream if an empty return never stopped the drain. */
  function Ideal(p: Parser): seq<Frame>
    decreases |p.buf|
  {
    var (q, o) := Next(p);
    match o
    case Got(f) => [f] + Ideal(q)
    case Stall => Ideal(q)
    case _ => []
  }

  lemma {:induction false} IdealExtend(p: Parser, more: string)
    requires !Drain(p).end.Crash?
    ensures Ideal(Feed(p, more)) == Drain(p).frames + Ideal(Feed(Drain(p).parser, more))
    decreases |p.buf|
  {
    hide Next;
    NextExtend(p, more);
    var (q, o) := Next(p);
    if o.Got? { IdealExtend(q, more); }
    if o.NeedMore? { SameNextSameIdeal(Feed(p, more), Feed(q, more)); }
  }

  lemma SameNextSameIdeal(p: Parser, q: Parser)
    requires Next(p) == Next(q)
    ensures Ideal(p) == Ideal(q) && Drain(p) == Drain(q)
  {
  }

  lemma {:induction false} IdealCrash(p: Parser)
    requires Drain(p).end.Crash?
    ensures Ideal(p) == Drain(p).frames
    decreases |p.buf|
  {
    hide Next;
    if Next(p).1.Got? { IdealCrash(Next(p).0); }
  }

  function Flatten(chunks: seq<string>): string
    decreases |chunks|
  {
    if chunks == [] then "" else chunks[0] + Flatten(chunks[1..])
  }

  /**
   However a byte stream is cut, the frames handed on begin with those of one big
   read and are themselves the beginning of the frames the stream contains.
   */
  lemma {:induction false} Sandwich(p: Parser, chunks: seq<string>)
    requires chunks != []
    ensures Drain(Feed(p, Flatten(chunks))).frames <= Received(p, chunks) <= Ideal(Feed(p, Flatten(chunks)))
    decreases |chunks|
  {
    hide Next, Drain, Ideal;
    var first, rest := chunks[0], chunks[1..];
    var q := Feed(p, first);
    var d := Drain(q);
    assert Feed(p, Flatten(chunks)) == Feed(q, Flatten(rest));
    DrainExtend(q, Flatten(rest));
    if d.end.Crash? {
      IdealCrash(Feed(q, Flatten(rest)));
    } else {
      IdealExtend(q, Flatten(rest));
      if rest == [] {
        assert Feed(q, "") == q;
      } else {
        Sandwich(d.parser, rest);
      }
    }
  }

  // ----- Byte by byte, nothing is held back

  predicate Settled(p: Parser) { Next(p) == (p, NeedMore) }

  function Bytes(s: string): seq<string> { seq(|s|, i requires 0 <= i < |s| => [s[i]]) }

  lemma {:induction false} NoCrlfButLast(s: string, c: char)
    requires FindCrlf(s).None? && FindCrlf(s + [c]).Some?
    ensures FindCrlf(s + [c]).value + 2 == |s| + 1
    decreases |s|
  {
    if |s| >= 2 {
      assert (s + [c])[1..] == s[1..] + [c];
      NoCrlfButLast(s[1..], c);
    }
  }

  /** After a single byte the parser is settled again: a line or payload it completes ends the buffer. */
  lemma SettledStep(p: Parser, c: char)
    requires Settled(p) && !Drain(Feed(p, [c])).end.Crash?
    ensures Settled(Drain(Feed(p, [c])).parser)
  {
    var q := Feed(p, [c]);
    if p.waiting {
      if Next(q).1.Got? { EmptySettled(Next(q).0); }
    } else {
      UnsettledOnlyByCrlf(p);
      if FindCrlf(q.buf).Some? {
        NoCrlfButLast(p.buf, c);
        assert q.buf[|q.buf|..] == "";
        var n := Next(q).0;
        hide ReadLine, FindCrlf;
        match ReadLine(q.buf[..FindCrlf(q.buf).value])
        case Header(m, k) => PayloadOfNothing(Parser("", k, m, true));
        case Unknown => EmptySettled(p.(buf := ""));
        case _ => EmptySettled(p.(buf := ""));
      }
    }
  }

  lemma UnsettledOnlyByCrlf(p: Parser)
    requires Settled(p) && !p.waiting
    ensures FindCrlf(p.buf).None?
  {
    if FindCrlf(p.buf).Some? {
      CrlfInside(p.buf);
      NextShrinks(p);
    }
  }

  lemma {:induction false} NextShrinks(p: Parser)
    requires !p.waiting && FindCrlf(p.buf).Some?
    ensures |Next(p).0.buf| < |p.buf|
    decreases |p.buf|
  {
    CrlfInside(p.buf);
    var rest := p.(buf := p.buf[FindCrlf(p.buf).value + 2..]);
    hide ReadLine;
    if FindCrlf(rest.buf).Some? { NextShrinks(rest); }
  }

  lemma EmptySettled(p: Parser)
    requires p.buf == "" && !p.waiting
    ensures Settled(p) && Drain(p) == Drained([], p, NeedMore) && Ideal(p) == []
  {
  }

  lemma PayloadOfNothing(p: Parser)
    requires p.buf == "" && p.waiting
    ensures Payload(p).1.Crash? || Payload(p) == (p, NeedMore)
    ensures !Payload(p).1.Crash? ==> Settled(p)
  {
  }

  lemma {:induction false} BytewiseIsIdeal(p: Parser, s: string)
    requires Settled(p)
    ensures Received(p, Bytes(s)) == Ideal(Feed(p, s))
    decreases |s|
  {
    if s == "" {
      assert Feed(p, s) == p;
    } else {
      var q := Feed(p, [s[0]]);
      var d := Drain(q);
      assert Bytes(s)[1..] == Bytes(s[1..]) && Bytes(s)[0] == [s[0]];
      assert Feed(p, s) == Feed(q, s[1..]) by { assert s == [s[0]] + s[1..]; }
      hide Next, Drain, Ideal;
      DrainExtend(q, s[1..]);
      if d.end.Crash? {
        IdealCrash(Feed(q, s[1..]));
      } else {
        IdealExtend(q, s[1..]);
        SettledStep(p, s[0]);
        BytewiseIsIdeal(d.parser, s[1..]);
      }
    }
  }

  lemma {:induction false} FlattenBytes(s: string)
    ensures Flatten(Bytes(s)) == s
    decreases |s|
  {
    if s != "" {
      assert Bytes(s)[1..] == Bytes(s[1..]);
      FlattenBytes(s[1..]);
    }
  }

  /** No frame of the stream comes after a line that makes `next` return empty: a blank one or a MSG of bad arity. */
  predicate NothingAfterStall(p: Parser) { Drain(p).end.Stall? ==> Ideal(Drain(p).parser) == [] }

  lemma {:induction false} IdealSplit(p: Parser)
    ensures Ideal(p) == Drain(p).frames + if Drain(p).end.Stall? then Ideal(Drain(p).parser) else []
    decreases |p.buf|
  {
    hide Next;
    if Next(p).1.Got? { IdealSplit(Next(p).0); }
  }

  ghost predicate ChunkInsensitive(p: Parser, s: string) {
    forall chunks | chunks != [] && Flatten(chunks) == s :: Received(p, chunks) == Drain(Feed(p, s)).frames
  }

  // ----- The same condition read off the bytes

  /** A payload of `n` bytes and its line end are all there. */
  predicate Enough(s: string, n: nat) { n + 2 < SIZE_MOD && |s| >= n + 2 }

  /** From a line start: some line completes a frame before a size that cannot be read. */
  predicate FrameFollows(s: string)
    decreases |s|
  {
    match FindCrlf(s)
    case None => false
    case Some(i) =>
      CrlfInside(s);
      var rest := s[i + 2..];
      match ReadLine(s[..i])
      case Whole(_) => true
      case Header(_, n) => Enough(rest, n)
      case BadSize => false
      case _ => FrameFollows(rest)
  }

  /** From a line start: the first line that is blank, or a MSG of bad arity, has no frame after it. */
  predicate StallsLast(s: string)
    decreases |s|
  {
    match FindCrlf(s)
    case None => true
    case Some(i) =>
      CrlfInside(s);
      var rest := s[i + 2..];
      match ReadLine(s[..i])
      case Blank => !FrameFollows(rest)
      case BadArity => !FrameFollows(rest)
      case BadSize => true
      case Header(_, n) => Enough(rest, n) ==> StallsLast(rest[n + 2..])
      case _ => StallsLast(rest)
  }

  /** One step of a drain, whatever the step is. */
  lemma DrainStep(p: Parser)
    ensures var (q, o) := Next(p);
      && (o.Got? ==> Ideal(p) != [] && (NothingAfterStall(p) <==> NothingAfterStall(q)))
      && (o.Stall? ==> Ideal(p) == Ideal(q) && (NothingAfterStall(p) <==> Ideal(q) == []))
      && (o.NeedMore? || o.Crash? ==> Ideal(p) == [] && NothingAfterStall(p))
  {
    hide Next;
  }

  lemma PayloadStep(p: Parser)
    requires p.waiting
    ensures if Enough(p.buf, p.len)
      then Next(p) == (Parser(p.buf[p.len + 2..], p.len, EMPTY, false), Got(p.msg.(payload := p.buf[..p.len])))
      else Next(p).1.NeedMore? || Next(p).1.Crash?
  {
  }

  /** What `next` makes of the line at the front. */
  lemma LineStep(p: Parser)
    requires !p.waiting && FindCrlf(p.buf).Some?
    ensures FindCrlf(p.buf).value + 2 <= |p.buf|
    ensures var i := FindCrlf(p.buf).value;
      var rest := p.(buf := p.buf[i + 2..]);
      match ReadLine(p.buf[..i])
      case Whole(f) => Next(p) == (rest, Got(f))
      case Header(m, n) => Next(p) == Next(Parser(rest.buf, n, m, true))
      case BadSize => Next(p).1.Crash?
      case Unknown => Next(p) == Next(rest)
      case _ => Next(p) == (rest, Stall)
  {
    CrlfInside(p.buf);
    hide ReadLine, FindCrlf;
  }

  lemma FrameFollowsLine(s: string)
    requires FindCrlf(s).Some?
    ensures FindCrlf(s).value + 2 <= |s|
    ensures var i := FindCrlf(s).value;
      var rest := s[i + 2..];
      FrameFollows(s) <==>
        match ReadLine(s[..i])
        case Whole(_) => true
        case Header(_, n) => Enough(rest, n)
        case BadSize => false
        case _ => FrameFollows(rest)
  {
    CrlfInside(s);
    hide ReadLine, FindCrlf;
  }

  lemma {:induction false} FrameFollowsIdeal(p: Parser)
    requires !p.waiting
    ensures Ideal(p) != [] <==> FrameFollows(p.buf)
    decreases |p.buf|
  {
    hide ReadLine, FindCrlf, FrameFollows, Next, Ideal, Drain, NothingAfterStall, StallsLast;
    DrainStep(p);
    if FindCrlf(p.buf).None? {
      NoLine(p);
    } else {
      LineStep(p);
      FrameFollowsLine(p.buf);
      var i := FindCrlf(p.buf).value;
      var rest := p.(buf := p.buf[i + 2..]);
      match ReadLine(p.buf[..i])
      case Blank => FrameFollowsIdeal(rest);
      case BadArity => FrameFollowsIdeal(rest);
      case Unknown => FrameFollowsIdeal(rest); SameNextSameIdeal(p, rest);
      case Header(m, n) => PayloadStep(Parser(rest.buf, n, m, true));
      case _ =>
    }
  }

  lemma NoLine(p: Parser)
    requires !p.waiting && FindCrlf(p.buf).None?
    ensures Next(p).1.NeedMore? && StallsLast(p.buf) && !FrameFollows(p.buf)
  {
  }

  lemma StallsLastLine(s: string)
    requires FindCrlf(s).Some?
    ensures FindCrlf(s).value + 2 <= |s|
    ensures var i := FindCrlf(s).value;
      var rest := s[i + 2..];
      StallsLast(s) <==>
        match ReadLine(s[..i])
        case Blank => !FrameFollows(rest)
        case BadArity => !FrameFollows(rest)
        case BadSize => true
        case Header(_, n) => Enough(rest, n) ==> StallsLast(rest[n + 2..])
        case _ => StallsLast(rest)
  {
    CrlfInside(s);
    hide ReadLine, FindCrlf, FrameFollows;
  }

  lemma {:induction false} StallsLastDrain(p: Parser)
    requires !p.waiting
    ensures NothingAfterStall(p) <==> StallsLast(p.buf)
    decreases |p.buf|
  {
    hide ReadLine, FindCrlf, FrameFollows, Next, Ideal, Drain, NothingAfterStall, StallsLast;
    DrainStep(p);
    if FindCrlf(p.buf).None? {
      NoLine(p);
    } else {
      LineStep(p);
      StallsLastLine(p.buf);
      var i := FindCrlf(p.buf).value;
      var rest := p.(buf := p.buf[i + 2..]);
      match ReadLine(p.buf[..i])
      case Blank => FrameFollowsIdeal(rest);
      case BadArity => FrameFollowsIdeal(rest);
      case Unknown => StallsLastDrain(rest); SameStall(p, rest);
      case Whole(_) => StallsLastDrain(rest);
      case Header(m, n) =>
        PayloadStep(Parser(rest.buf, n, m, true));
        if Enough(rest.buf, n) { StallsLastDrain(Parser(rest.buf[n + 2..], n, EMPTY, false)); }
      case BadSize =>
    }
  }

  lemma SameStall(p: Parser, q: Parser)
    requires Next(p) == Next(q)
    ensures NothingAfterStall(p) <==> NothingAfterStall(q)
  {
    hide Next;
    SameNextSameIdeal(p, q);
  }

  /** The stream as seen from a parser that may still be owed a payload. */
  predicate StallsLastFrom(p: Parser) {
    if p.waiting then Enough(p.buf, p.len) ==> StallsLast(p.buf[p.len + 2..]) else StallsLast(p.buf)
  }

  lemma StallsLastFromDrain(p: Parser)
    ensures NothingAfterStall(p) <==> StallsLastFrom(p)
  {
    hide Next, Drain, Ideal, NothingAfterStall, StallsLast;
    if p.waiting {
      DrainStep(p);
      PayloadStep(p);
      if Enough(p.buf, p.len) { StallsLastDrain(Parser(p.buf[p.len + 2..], p.len, EMPTY, false)); }
    } else {
      StallsLastDrain(p);
    }
  }

  /** Exactly when the cut points of a stream, of arbitrary bytes, do not matter. */
  lemma ChunkInsensitiveIff(p: Parser, s: string)
    requires Settled(p) && s != ""
    ensures ChunkInsensitive(p, s) <==> StallsLastFrom(Feed(p, s))
  {
    var q := Feed(p, s);
    IdealSplit(q);
    StallsLastFromDrain(q);
    hide Next, Drain, Ideal, StallsLastFrom;
    if NothingAfterStall(q) {
      forall chunks | chunks != [] && Flatten(chunks) == s ensures Received(p, chunks) == Drain(q).frames {
        Sandwich(p, chunks);
      }
    } else {
      BytewiseIsIdeal(p, s);
      FlattenBytes(s);
      assert Bytes(s) != [] && Received(p, Bytes(s)) != Drain(q).frames;
    }
  }

  // ----- Well-formed streams

  predicate IsToken(s: string) { s != "" && forall c | c in s :: !IsSpace(c) }

  predicate WellFormed(f: Frame) {
    match f.kind
    case Info => f == EMPTY.(payload := f.payload) && FindCrlf(f.payload).None?
    case Err => f == EMPTY.(kind := Err, payload := f.payload) && FindCrlf(f.payload).None?
    case Msg => IsToken(f.subject) && IsToken(f.sid) && (f.reply == "" || IsToken(f.reply))
        && |f.payload| + 2 < SIZE_MOD
    case _ => f == EMPTY.(kind := f.kind)
  }

  function Decimal(n: nat): string {
    if n < 10 then [('0' as int + n) as char] else Decimal(n / 10) + [('0' as int + n % 10) as char]
  }

  function HeaderLine(f: Frame): string {
    match f.kind
    case Info => "INFO " + f.payload
    case Err => "-ERR " + f.payload
    case Ping => "PING"
    case Pong => "PONG"
    case Ok => "+OK"
    case Msg => "MSG " + MsgFields(f)
  }

  function MsgFields(f: Frame): string {
    f.subject + " " + f.sid + " " + (if f.reply == "" then "" else f.reply + " ") + Decimal(|f.payload|)
  }

  /** The bytes a server sends for a frame. */
  function Serialize(f: Frame): string {
    HeaderLine(f) + "\r\n" + if f.kind == Msg then f.payload + "\r\n" else ""
  }

  lemma {:induction false} DecimalDigits(n: nat)
    ensures Decimal(n) != "" && (forall c | c in Decimal(n) :: IsDigit(c)) && Value(Decimal(n)) == n
    decreases n
  {
    if n >= 10 {
      DecimalDigits(n / 10);
      assert Decimal(n)[..|Decimal(n)| - 1] == Decimal(n / 10);
    }
  }

  lemma {:induction false} AllDigitsRun(s: string)
    requires forall c | c in s :: IsDigit(c)
    ensures DigitRun(s) == |s|
    decreases |s|
  {
    if s != "" { assert s[0] in s; AllDigitsRun(s[1..]); }
  }

  lemma StoulDecimal(n: nat)
    requires n < SIZE_MOD
    ensures Stoul(Decimal(n)) == Some(n)
  {
    DecimalDigits(n);
    AllDigitsRun(Decimal(n));
    assert Decimal(n)[0] in Decimal(n);
    assert Decimal(n)[..|Decimal(n)|] == Decimal(n);
  }

  lemma {:induction false} TokenLenOf(tok: string, rest: string)
    requires (forall c | c in tok :: !IsSpace(c)) && (rest == "" || IsSpace(rest[0]))
    ensures TokenLen(tok + rest) == |tok|
    decreases |tok|
  {
    if tok == "" {
      assert tok + rest == rest;
    } else {
      assert tok[0] in tok;
      assert (tok + rest)[1..] == tok[1..] + rest;
      TokenLenOf(tok[1..], rest);
    }
  }

  /** A token and the space after it. */
  lemma SplitToken(tok: string, rest: string)
    requires IsToken(tok)
    ensures Split(tok + " " + rest) == [tok] + Split(rest)
    ensures Split(tok) == [tok]
  {
    assert tok[0] in tok;
    var s := tok + " " + rest;
    TokenLenOf(tok, " " + rest);
    assert s == tok + (" " + rest);
    assert s[..|tok|] == tok && s[|tok|..] == " " + rest && (" " + rest)[1..] == rest;
    TokenLenOf(tok, "");
    assert tok + "" == tok && tok[..|tok|] == tok && tok[|tok|..] == "";
  }

  lemma SpaceTable(c: char)
    ensures IsSpace(c) <==> c as int in {0x09, 0x0A, 0x0B, 0x0C, 0x0D, 0x20}
  {
  }

  /** Any white space separates, any run of it as one: with the words, this is all of what splitting does. */
  lemma {:induction false} SplitAtSpace(a: string, c: char, b: string)
    requires IsSpace(c)
    ensures Split(a + [c] + b) == Split(a) + Split(b)
    decreases |a|
  {
    var s := a + [c] + b;
    if a == "" {
      assert s[0] == c && s[1..] == b;
    } else if IsSpace(a[0]) {
      assert s[1..] == a[1..] + [c] + b;
      SplitAtSpace(a[1..], c, b);
    } else {
      var n := TokenLen(a);
      TokenExtends(a, [c] + b);
      assert a + ([c] + b) == s;
      assert s[..n] == a[..n] && s[n..] == a[n..] + [c] + b;
      SplitAtSpace(a[n..], c, b);
    }
  }

  lemma {:induction false} TokenExtends(a: string, b: string)
    requires b != "" && IsSpace(b[0])
    ensures TokenLen(a + b) == TokenLen(a)
    decreases |a|
  {
    if a == "" {
      assert a + b == b;
    } else if !IsSpace(a[0]) {
      assert (a + b)[1..] == a[1..] + b;
      TokenExtends(a[1..], b);
    }
  }

  lemma {:induction false} DigitRunOf(d: string, rest: string)
    requires (forall c | c in d :: IsDigit(c)) && (rest == "" || !IsDigit(rest[0]))
    ensures DigitRun(d + rest) == |d|
    decreases |d|
  {
    if d == "" {
      assert d + rest == rest;
    } else {
      assert d[0] in d;
      assert (d + rest)[1..] == d[1..] + rest;
      DigitRunOf(d[1..], rest);
    }
  }

  /**
   What a size field means: the value of its digits, behind a sign if any and up to the first other
   character; a minus takes it from 2^64; without digits, or from 2^64 on, the conversion throws.
   */
  lemma StoulLaw(sign: string, d: string, rest: string)
    requires sign in ["", "+", "-"] && (forall c | c in d :: IsDigit(c)) && (rest == "" || !IsDigit(rest[0]))
    requires sign == "" && d == "" && rest != "" ==> rest[0] != '+' && rest[0] != '-'
    ensures Stoul(sign + d + rest) ==
      if d == "" || Value(d) >= 0x1_0000_0000_0000_0000 then None
      else if sign != "-" then Some(Value(d))
      else if Value(d) == 0 then Some(0)
      else Some(0x1_0000_0000_0000_0000 - Value(d))
  {
    hide Value;
    var tok := sign + d + rest;
    DigitRunOf(d, rest);
    assert (d + rest)[..|d|] == d;
    if Value(d) < SIZE_MOD { WrapsBelow(Value(d)); }
    if d != "" { assert d[0] in d; }
    hide DigitRun;
    if sign == "" {
      assert tok == d + rest;
      assert tok != "" ==> tok[0] != '+' && tok[0] != '-';
    } else {
      assert tok[0] == sign[0] && tok[1..] == d + rest;
    }
  }

  lemma WrapsBelow(v: nat)
    requires v < SIZE_MOD
    ensures (SIZE_MOD - v) % SIZE_MOD == if v == 0 then 0 else SIZE_MOD - v
  {
  }

  /** What each line is taken for, by its first characters. */
  lemma LineKinds(line: string, rest: string)
    ensures ReadLine("INFO " + rest) == Whole(Frame(Info, "", "", "", rest))
    ensures ReadLine("-ERR " + rest) == Whole(Frame(Err, "", "", "", rest))
    ensures ReadLine("MSG " + rest).BadArity? <==> |Split(rest)| !in {3, 4}
    ensures ReadLine("MSG " + rest).BadSize? <==>
      |Split(rest)| in {3, 4} && Stoul(Split(rest)[|Split(rest)| - 1]).None?
    ensures ReadLine(line).Unknown? <==>
      && line !in {"", "PING", "PONG", "+OK"}
      && !("INFO " <= line) && !("-ERR " <= line) && !("MSG " <= line)
  {
    hide Split, Stoul;
    assert ("INFO " + rest)[5..] == rest && ("-ERR " + rest)[5..] == rest && ("MSG " + rest)[4..] == rest;
    assert ("-ERR " + rest)[0] == '-' && ("MSG " + rest)[0] == 'M' && ("INFO " + rest)[0] == 'I';
    assert "PING"[0] == 'P' && "PONG"[0] == 'P' && "+OK"[0] == '+';
  }

  lemma DecimalToken(n: nat)
    ensures IsToken(Decimal(n))
  {
    DecimalDigits(n);
  }

  lemma MsgFieldsSplit(f: Frame)
    requires f.kind == Msg && WellFormed(f)
    ensures Split(MsgFields(f))
         == (if f.reply == "" then [f.subject, f.sid] else [f.subject, f.sid, f.reply]) + [Decimal(|f.payload|)]
  {
    hide Split, IsToken;
    var n := Decimal(|f.payload|);
    var tail := (if f.reply == "" then "" else f.reply + " ") + n;
    DecimalToken(|f.payload|);
    SplitToken(n, "");
    if f.reply != "" {
      SplitToken(f.reply, n);
      assert f.reply + " " + n == tail;
    } else {
      assert tail == n;
    }
    SplitToken(f.sid, tail);
    SplitToken(f.subject, f.sid + " " + tail);
    assert MsgFields(f) == f.subject + " " + (f.sid + " " + tail);
  }

  lemma LineRead(f: Frame)
    requires WellFormed(f)
    ensures ReadLine(HeaderLine(f)) == if f.kind == Msg then Header(f.(payload := ""), |f.payload|) else Whole(f)
  {
    var line := HeaderLine(f);
    if f.kind == Msg {
      assert line[4..] == MsgFields(f);
      MsgFieldsSplit(f);
      StoulDecimal(|f.payload|);
      hide Split, Stoul, Decimal;
      assert line[0] == 'M';
    } else if f.kind == Info || f.kind == Err {
      assert line[5..] == f.payload;
      assert line[0] == if f.kind == Info then 'I' else '-';
    }
  }

  lemma {:induction false} NoReturnNoCrlf(s: string)
    requires '\r' !in s
    ensures FindCrlf(s).None?
    decreases |s|
  {
    if |s| >= 2 { assert s[0] in s; NoReturnNoCrlf(s[1..]); }
  }

  lemma {:induction false} CrlfAt(line: string, rest: string)
    requires FindCrlf(line).None?
    ensures FindCrlf(line + "\r\n" + rest) == Some(|line|)
    decreases |line|
  {
    var s := line + "\r\n" + rest;
    if line != "" {
      assert s[1..] == line[1..] + "\r\n" + rest;
      if |line| == 1 { CrlfAt("", rest); assert line[1..] == ""; } else { CrlfAt(line[1..], rest); }
    }
  }

  lemma {:induction false} PrefixNoCrlf(head: string, s: string)
    requires '\r' !in head && FindCrlf(s).None?
    ensures FindCrlf(head + s).None?
    decreases |head|
  {
    if head == "" {
      assert head + s == s;
    } else {
      assert head[0] in head;
      assert (head + s)[1..] == head[1..] + s;
      PrefixNoCrlf(head[1..], s);
    }
  }

  lemma HeaderNoCrlf(f: Frame)
    requires WellFormed(f)
    ensures FindCrlf(HeaderLine(f)).None?
  {
    hide FindCrlf;
    match f.kind
    case Info => PrefixNoCrlf("INFO ", f.payload);
    case Err => PrefixNoCrlf("-ERR ", f.payload);
    case Msg =>
      DecimalToken(|f.payload|);
      assert forall t: string | IsToken(t) :: '\r' !in t;
      NoReturnNoCrlf(HeaderLine(f));
    case _ => NoReturnNoCrlf(HeaderLine(f));
  }

  /** A line at the head of the buffer is what `next` looks at. */
  lemma NextOnLine(p: Parser, line: string, tail: string)
    requires !p.waiting && FindCrlf(line).None? && p.buf == line + "\r\n" + tail
    ensures ReadLine(line).Whole? ==> Next(p) == (p.(buf := tail), Got(ReadLine(line).frame))
    ensures ReadLine(line).Header? ==> Next(p) == Payload(Parser(tail, ReadLine(line).len, ReadLine(line).msg, true))
    ensures ReadLine(line).Blank? ==> Next(p) == (p.(buf := tail), Stall)
  {
    hide ReadLine, FindCrlf, Payload;
    CrlfAt(line, tail);
    assert p.buf[..|line|] == line && p.buf[|line| + 2..] == tail;
  }

  lemma PayloadTaken(p: Parser, body: string, rest: string)
    requires p.buf == body + "\r\n" + rest && p.len == |body| && |body| + 2 < SIZE_MOD
    ensures Payload(p) == (Parser(rest, p.len, EMPTY, false), Got(p.msg.(payload := body)))
  {
    assert p.buf[..|body|] == body && p.buf[|body| + 2..] == rest;
  }

  /** One well-formed frame at the head of the buffer is handed on, and nothing else is consumed. */
  lemma ReadsFrame(p: Parser, f: Frame, rest: string)
    requires !p.waiting && WellFormed(f) && p.buf == Serialize(f) + rest
    ensures var (q, o) := Next(p); o == Got(f) && q.buf == rest && !q.waiting
  {
    hide FindCrlf, ReadLine, HeaderLine, WellFormed, Next, Payload;
    LineRead(f);
    HeaderNoCrlf(f);
    var line := HeaderLine(f);
    if f.kind == Msg {
      WellFormedSize(f);
      var tail := f.payload + "\r\n" + rest;
      assert p.buf == line + "\r\n" + tail;
      NextOnLine(p, line, tail);
      PayloadTaken(Parser(tail, |f.payload|, f.(payload := ""), true), f.payload, rest);
    } else {
      assert p.buf == line + "\r\n" + rest;
      NextOnLine(p, line, rest);
    }
  }

  lemma WellFormedSize(f: Frame)
    requires WellFormed(f) && f.kind == Msg
    ensures |f.payload| + 2 < SIZE_MOD
  {
  }

  /** An unfinished well-formed frame yields nothing yet. */
  lemma UnfinishedFrame(p: Parser, f: Frame, n: nat)
    requires !p.waiting && WellFormed(f) && n < |Serialize(f)| && p.buf == Serialize(f)[..n]
    ensures Ideal(p) == [] && Drain(p).frames == []
  {
    hide Serialize;
    var more := Serialize(f)[n..];
    var full := Feed(p, more);
    assert full.buf == Serialize(f) + "";
    ReadsFrame(full, f, "");
    NextExtend(p, more);
    var (q, o) := Next(p);
    assert |Feed(q, more).buf| > 0;
  }

  function SerializeAll(fs: seq<Frame>): string
    decreases |fs|
  {
    if fs == [] then "" else Serialize(fs[0]) + SerializeAll(fs[1..])
  }

  lemma {:induction false} StreamContains(p: Parser, fs: seq<Frame>, f: Frame, n: nat)
    requires !p.waiting && (forall g | g in fs :: WellFormed(g)) && WellFormed(f) && n < |Serialize(f)|
    requires p.buf == SerializeAll(fs) + Serialize(f)[..n]
    ensures Ideal(p) == fs && Drain(p).frames == fs
    decreases |fs|
  {
    hide Serialize, Next, WellFormed;
    if fs == [] {
      assert p.buf == Serialize(f)[..n];
      UnfinishedFrame(p, f, n);
    } else {
      var rest := SerializeAll(fs[1..]) + Serialize(f)[..n];
      assert p.buf == Serialize(fs[0]) + rest;
      ReadsFrame(p, fs[0], rest);
      StreamContains(Next(p).0, fs[1..], f, n);
    }
  }

  /**
   Chunk insensitivity on the wire: well-formed frames with arbitrary payload bytes,
   followed by any unfinished part of one more, cut anywhere, come out exactly.
   */
  lemma ExactDelivery(fs: seq<Frame>, f: Frame, n: nat, chunks: seq<string>)
    requires (forall g | g in fs :: WellFormed(g)) && WellFormed(f) && n < |Serialize(f)|
    requires chunks != [] && Flatten(chunks) == SerializeAll(fs) + Serialize(f)[..n]
    ensures Received(FRESH, chunks) == fs
  {
    hide Serialize, SerializeAll, WellFormed, Drain, Ideal;
    Sandwich(FRESH, chunks);
    StreamContains(Feed(FRESH, Flatten(chunks)), fs, f, n);
  }

  /** A blank line hides the frames after it until more bytes arrive, in one chunk but not in two. */
  lemma BlankLineStalls()
    ensures Received(FRESH, ["\r\nPING\r\n"]) == []
    ensures Received(FRESH, ["\r\n", "PING\r\n"]) == [EMPTY.(kind := Ping)]
  {
    hide Next, FindCrlf;
    var ping, one := EMPTY.(kind := Ping), "PING\r\n";
    assert "\r\n" + one == "\r\nPING\r\n" && Serialize(ping) == one;
    NextOnLineBlank(Feed(FRESH, "\r\n" + one), one);
    NextOnLineBlank(Feed(FRESH, "\r\n"), "");
    ReadsFrame(Feed(FRESH, one), ping, "");
    EmptySettled(Next(Feed(FRESH, one)).0);
    ReceivedOne(FRESH, "\r\nPING\r\n");
    ReceivedOne(FRESH, one);
    assert ["\r\n", one][1..] == [one];
    hide Serialize;
  }

  lemma ReceivedOne(p: Parser, chunk: string)
    ensures Received(p, [chunk]) == Drain(Feed(p, chunk)).frames
  {
    assert [chunk][1..] == [];
  }

  lemma NextOnLineBlank(p: Parser, rest: string)
    requires !p.waiting && p.buf == "\r\n" + rest
    ensures Next(p) == (p.(buf := rest), Stall)
    ensures Drain(p) == Drained([], p.(buf := rest), Stall)
  {
    assert p.buf == "" + "\r\n" + rest;
    hide Next;
    NextOnLine(p, "", rest);
  }

  // ----- No other frame is ever delivered

  lemma {:induction false} SplitTokens(s: string)
    ensures forall t | t in Split(s) :: IsToken(t)
    decreases |s|
  {
    if s != "" {
      if IsSpace(s[0]) {
        SplitTokens(s[1..]);
      } else {
        SplitTokens(s[TokenLen(s)..]);
        TokenChars(s);
      }
    }
  }

  lemma {:induction false} TokenChars(s: string)
    ensures forall c | c in s[..TokenLen(s)] :: !IsSpace(c)
    decreases |s|
  {
    if s != "" && !IsSpace(s[0]) {
      TokenChars(s[1..]);
      assert s[..TokenLen(s)] == [s[0]] + s[1..][..TokenLen(s[1..])];
    }
  }

  lemma {:induction false} BeforeCrlf(s: string)
    requires FindCrlf(s).Some?
    ensures FindCrlf(s).value <= |s| && FindCrlf(s[..FindCrlf(s).value]).None?
    decreases |s|
  {
    CrlfInside(s);
    var i := FindCrlf(s).value;
    if i > 0 {
      BeforeCrlf(s[1..]);
      assert s[..i][1..] == s[1..][..i - 1];
    }
  }

  lemma {:induction false} SuffixWithoutCrlf(s: string, k: nat)
    requires FindCrlf(s).None? && k <= |s|
    ensures FindCrlf(s[k..]).None?
    decreases k
  {
    if k > 0 && |s| >= 2 {
      SuffixWithoutCrlf(s[1..], k - 1);
      assert s[k..] == s[1..][k - 1..];
    }
  }

  lemma LineWellFormed(line: string)
    requires FindCrlf(line).None?
    ensures ReadLine(line).Whole? ==> WellFormed(ReadLine(line).frame)
    ensures ReadLine(line).Header? ==> Owed(Parser("", ReadLine(line).len, ReadLine(line).msg, true))
  {
    hide FindCrlf, Stoul, Split, IsToken;
    if |line| >= 5 { SuffixWithoutCrlf(line, 5); }
    if "MSG " <= line { SplitTokens(line[4..]); }
    assert FindCrlf("").None? by { NoCrlf(); }
  }

  lemma NoCrlf()
    ensures FindCrlf("").None?
  {
  }

  /** A parser that waits for a payload has a well-formed message waiting for it. */
  predicate Owed(p: Parser) {
    p.waiting ==>
      && p.msg.kind == Msg && IsToken(p.msg.subject) && IsToken(p.msg.sid)
      && (p.msg.reply == "" || IsToken(p.msg.reply))
  }

  lemma PayloadWellFormed(p: Parser)
    requires p.waiting && Owed(p)
    ensures Owed(Payload(p).0) && (Payload(p).1.Got? ==> WellFormed(Payload(p).1.frame))
  {
    hide IsToken;
  }

  lemma {:induction false} NextWellFormed(p: Parser)
    requires Owed(p)
    ensures Owed(Next(p).0) && (Next(p).1.Got? ==> WellFormed(Next(p).1.frame))
    decreases |p.buf|
  {
    hide ReadLine, FindCrlf, Payload, WellFormed, IsToken;
    if p.waiting {
      PayloadWellFormed(p);
    } else if FindCrlf(p.buf).Some? {
      CrlfInside(p.buf);
      BeforeCrlf(p.buf);
      var i := FindCrlf(p.buf).value;
      var rest := p.(buf := p.buf[i + 2..]);
      LineWellFormed(p.buf[..i]);
      match ReadLine(p.buf[..i])
      case Header(m, n) => PayloadWellFormed(Parser(rest.buf, n, m, true));
      case Unknown => NextWellFormed(rest);
      case _ =>
    }
  }

  lemma {:induction false} DrainWellFormed(p: Parser)
    requires Owed(p)
    ensures Owed(Drain(p).parser) && forall f | f in Drain(p).frames :: WellFormed(f)
    decreases |p.buf|
  {
    hide Next, WellFormed, Owed;
    NextWellFormed(p);
    if Next(p).1.Got? { DrainWellFormed(Next(p).0); }
  }

  lemma {:induction false} ReceivedWellFormed(p: Parser, chunks: seq<string>)
    requires Owed(p)
    ensures forall f | f in Received(p, chunks) :: WellFormed(f)
    decreases |chunks|
  {
    if chunks != [] {
      assert Owed(Feed(p, chunks[0]));
      hide Drain, WellFormed, Owed, Feed;
      var d := Drain(Feed(p, chunks[0]));
      DrainWellFormed(Feed(p, chunks[0]));
      ReceivedWellFormed(d.parser, chunks[1..]);
    }
  }

  /** Out of arbitrary bytes in arbitrary chunks come the well-formed frames, all of them and no others. */
  lemma DeliverableIff(f: Frame)
    ensures WellFormed(f) <==> exists chunks :: f in Received(FRESH, chunks)
  {
    forall chunks | f in Received(FRESH, chunks) ensures WellFormed(f) { ReceivedWellFormed(FRESH, chunks); }
    if WellFormed(f) {
      var q := EMPTY.(kind := Ping);
      assert Flatten([Serialize(f)]) == SerializeAll([f]) + Serialize(q)[..0];
      ExactDelivery([f], q, 0, [Serialize(f)]);
      assert f in Received(FRESH, [Serialize(f)]);
    }
  }
}
