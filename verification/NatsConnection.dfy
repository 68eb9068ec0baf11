/**
 Subscriptions of the core daemon across reconnects: core/src/nats/Connection.cpp.
 Every mutex-guarded section is one step; callers of `subscribe` and the reader
 thread's reconnect loop interleave at any point between sections.
 */
module NatsConnection {
  datatype Line = Connect | Sub(sid: nat, subject: string)

  type Snapshot = seq<(nat, string)>

  /** Where the reader thread is: reading, or inside one turn of the reconnect loop. */
  datatype Reader = Reading | Retrying | Closed | Connected | Resending(snapshot: Snapshot)

  /** `pending` holds subscriptions registered but not yet written; `wire` is what the live connection has carried. */
  datatype Conn = Conn(nextSid: nat, subs: map<nat, string>, pending: map<nat, string>,
                       wire: seq<Line>, live: bool, reader: Reader)

  datatype Event =
    | Register(subject: string)
    | WriteSub(sid: nat)
    | Drop
    | Close
    | Dial(ok: bool)
    | TakeSnapshot(snapshot: Snapshot)
    | Resend

  const START := Conn(1, map[], map[], [Connect], true, Reading)

  /** A snapshot lists every subscription once. */
  ghost predicate Lists(snapshot: Snapshot, subs: map<nat, string>) {
    && (forall e | e in snapshot :: e.0 in subs && subs[e.0] == e.1)
    && (forall sid | sid in subs :: (sid, subs[sid]) in snapshot)
  }

  ghost predicate Enabled(c: Conn, e: Event) {
    match e
    case Register(_) => true
    case WriteSub(sid) => sid in c.pending
    case Drop => c.live
    case Close => c.reader.Retrying?
    case Dial(_) => c.reader.Closed?
    case TakeSnapshot(s) => c.reader.Connected? && Lists(s, c.subs)
    case Resend => c.reader.Resending?
  }

  function SubLines(s: Snapshot): seq<Line> { seq(|s|, i requires 0 <= i < |s| => Sub(s[i].0, s[i].1)) }

  /** Writes succeed on a live transport and are lost otherwise. */
  function Written(c: Conn, lines: seq<Line>): Conn { if c.live then c.(wire := c.wire + lines) else c }

  function Step(c: Conn, e: Event): Conn
    requires e.WriteSub? ==> e.sid in c.pending
    requires e.Resend? ==> c.reader.Resending?
  {
    match e
    case Register(subject) =>
      c.(nextSid := c.nextSid + 1, subs := c.subs[c.nextSid := subject], pending := c.pending[c.nextSid := subject])
    case WriteSub(sid) => Written(c, [Sub(sid, c.pending[sid])]).(pending := c.pending - {sid})
    case Drop => c.(live := false, wire := [], reader := if c.reader.Reading? then Retrying else c.reader)
    case Close => c.(live := false, wire := [], reader := Closed)
    case Dial(ok) => if ok then c.(live := true, wire := [], reader := Connected) else c.(reader := Retrying)
    case TakeSnapshot(s) => c.(reader := Resending(s))
    case Resend =>
      if c.live then Written(c, [Connect] + SubLines(c.reader.snapshot)).(reader := Reading)
      else c.(reader := Retrying)
  }

  class Connection {
    var state: Conn

    constructor ()
      ensures state == START
    {
      state := START;
    }

    /** First section of `subscribe`. */
    method BeginSubscribe(subject: string) returns (sid: nat)
      modifies this
      ensures sid == old(state).nextSid && state == Step(old(state), Register(subject))
    {
      sid := state.nextSid;
      state := state.(nextSid := sid + 1, subs := state.subs[sid := subject], pending := state.pending[sid := subject]);
    }

    /** Second section of `subscribe`. */
    method FinishSubscribe(sid: nat)
      requires sid in state.pending
      modifies this
      ensures state == Step(old(state), WriteSub(sid))
    {
      Transmit(Sub(sid, state.pending[sid]));
      state := state.(pending := state.pending - {sid});
    }

    method Transmit(l: Line)
      modifies this
      ensures state == Written(old(state), [l])
    {
      if state.live { state := state.(wire := state.wire + [l]); }
    }

    /** The section of the reconnect loop that sends CONNECT and then every snapshot entry. */
    method ResendAll()
      requires state.reader.Resending?
      modifies this
      ensures state == Step(old(state), Resend)
    {
      if !state.live {
        state := state.(reader := Retrying);
        return;
      }
      var snapshot := state.reader.snapshot;
      Transmit(Connect);
      for i := 0 to |snapshot|
        invariant state == old(state).(wire := old(state).wire + [Connect] + SubLines(snapshot[..i]))
      {
        Transmit(Sub(snapshot[i].0, snapshot[i].1));
        assert SubLines(snapshot[..i + 1]) == SubLines(snapshot[..i]) + [Sub(snapshot[i].0, snapshot[i].1)];
      }
      assert snapshot[..|snapshot|] == snapshot;
      assert old(state).wire + [Connect] + SubLines(snapshot) == old(state).wire + ([Connect] + SubLines(snapshot));
      state := state.(reader := Reading);
    }
  }

  // ----- No subscription is lost

  /** Subscription `sid` has been sent, or its own caller is still going to send it. */
  predicate Covered(c: Conn, sid: nat)
    requires sid in c.subs
  {
    Sub(sid, c.subs[sid]) in c.wire || sid in c.pending
  }

  ghost predicate Inv(c: Conn) {
    && (forall sid | sid in c.subs :: sid < c.nextSid)
    && (forall sid | sid in c.pending :: sid in c.subs && c.pending[sid] == c.subs[sid])
    && (c.reader.Reading? ==> c.live && forall sid | sid in c.subs :: Covered(c, sid))
    && (c.reader.Resending? && c.live ==>
          forall sid | sid in c.subs :: (sid, c.subs[sid]) in c.reader.snapshot || Covered(c, sid))
    && (forall l | l in c.wire && l.Sub? :: l.sid in c.subs && c.subs[l.sid] == l.subject)
    && (c.reader.Resending? ==> forall e | e in c.reader.snapshot :: e.0 in c.subs && c.subs[e.0] == e.1)
  }

  lemma ResendCovers(c: Conn)
    requires Inv(c) && c.reader.Resending? && c.live
    ensures Inv(Step(c, Resend))
  {
    var s := c.reader.snapshot;
    var c' := Step(c, Resend);
    forall sid | sid in c.subs ensures Covered(c', sid) {
      if (sid, c.subs[sid]) in s {
        var i :| 0 <= i < |s| && s[i] == (sid, c.subs[sid]);
        assert SubLines(s)[i] == Sub(sid, c.subs[sid]);
        assert Sub(sid, c.subs[sid]) in SubLines(s);
      }
    }
    forall l | l in c'.wire && l.Sub? ensures l.sid in c.subs && c.subs[l.sid] == l.subject {
      if l in SubLines(s) {
        var i :| 0 <= i < |s| && SubLines(s)[i] == l;
        assert s[i] in s;
      }
    }
  }

  lemma InvStep(c: Conn, e: Event)
    requires Inv(c) && Enabled(c, e)
    ensures Inv(Step(c, e))
  {
    if e.Resend? && c.live { ResendCovers(c); }
    if e.Register? {
      var c' := Step(c, e);
      forall sid | sid in c'.subs && c.reader.Reading? ensures Covered(c', sid) {
        if sid != c.nextSid { assert Covered(c, sid); }
      }
    }
    if e.WriteSub? {
      var c' := Step(c, e);
      forall sid | sid in c.subs && Covered(c, sid) && c.live ensures Covered(c', sid) {
      }
    }
  }

  ghost predicate IsRun(states: seq<Conn>, events: seq<Event>) {
    && |states| == |events| + 1 && states[0] == START
    && forall i | 0 <= i < |events| :: Enabled(states[i], events[i]) && states[i + 1] == Step(states[i], events[i])
  }

  lemma {:induction false} InvAlong(states: seq<Conn>, events: seq<Event>, i: nat)
    requires IsRun(states, events) && i < |states|
    ensures Inv(states[i])
    decreases i
  {
    if i > 0 {
      InvAlong(states, events, i - 1);
      InvStep(states[i - 1], events[i - 1]);
    }
  }

  /**
   In every interleaving, with any number of drops, failed dials and concurrent
   callers: once the reader is back to reading and no `subscribe` is half done, the
   live connection has carried exactly the registered subscriptions.
   */
  lemma NoLostSubscription(states: seq<Conn>, events: seq<Event>, i: nat, l: Line)
    requires IsRun(states, events) && i < |states|
    requires states[i].reader.Reading? && states[i].pending == map[] && l.Sub?
    ensures states[i].live
    ensures l in states[i].wire <==> l.sid in states[i].subs && states[i].subs[l.sid] == l.subject
  {
    InvAlong(states, events, i);
    if l.sid in states[i].subs { assert Covered(states[i], l.sid); }
  }

  // ----- The table and the wire in terms of the calls made

  /** The subjects of the `subscribe` calls begun, in order. */
  function Calls(events: seq<Event>): seq<string> {
    if events == [] then []
    else
      var e := events[|events| - 1];
      Calls(events[..|events| - 1]) + if e.Register? then [e.subject] else []
  }

  /** The table is exactly the calls: the n-th call has number n, and there are no other entries. */
  lemma {:induction false} SubsAreCalls(states: seq<Conn>, events: seq<Event>, i: nat)
    requires IsRun(states, events) && i < |states|
    ensures var c, calls := states[i], Calls(events[..i]);
      && c.nextSid == |calls| + 1
      && (forall sid :: sid in c.subs <==> 1 <= sid <= |calls|)
      && (forall sid | 1 <= sid <= |calls| :: c.subs[sid] == calls[sid - 1])
    decreases i
  {
    if i > 0 {
      SubsAreCalls(states, events, i - 1);
      assert events[..i][..i - 1] == events[..i - 1];
      if !events[i - 1].Register? { KeepsTable(states[i - 1], events[i - 1]); }
    }
  }

  lemma KeepsTable(c: Conn, e: Event)
    requires Enabled(c, e) && !e.Register?
    ensures Step(c, e).subs == c.subs && Step(c, e).nextSid == c.nextSid
  {
  }

  /** A call is pending exactly until its own SUB line has been handed to the transport. */
  lemma {:induction false} PendingIff(states: seq<Conn>, events: seq<Event>, i: nat, sid: nat)
    requires IsRun(states, events) && i < |states|
    ensures sid in states[i].pending <==> 1 <= sid <= |Calls(events[..i])| && WriteSub(sid) !in events[..i]
    decreases i
  {
    if i > 0 {
      PendingIff(states, events, i - 1, sid);
      SubsAreCalls(states, events, i - 1);
      var c, e := states[i - 1], events[i - 1];
      assert events[..i] == events[..i - 1] + [e] && events[..i][..i - 1] == events[..i - 1];
      if e.Register? { NotYetWritten(states, events, i - 1, c.nextSid); }
    }
  }

  lemma {:induction false} NotYetWritten(states: seq<Conn>, events: seq<Event>, i: nat, sid: nat)
    requires IsRun(states, events) && i < |states| && sid >= states[i].nextSid
    ensures WriteSub(sid) !in events[..i]
    decreases i
  {
    if i > 0 {
      var c, e := states[i - 1], events[i - 1];
      assert events[..i] == events[..i - 1] + [e];
      NotYetWritten(states, events, i - 1, sid);
      InvAlong(states, events, i - 1);
    }
  }

  /**
   Per call: once the reader reads and no `subscribe` is half done, the SUB lines on the
   live connection are exactly the numbers and subjects of the calls ever made.
   */
  lemma EveryCallOnWire(states: seq<Conn>, events: seq<Event>, i: nat, sid: nat, subject: string)
    requires IsRun(states, events) && i < |states| && states[i].reader.Reading?
    requires forall n | 1 <= n <= |Calls(events[..i])| :: WriteSub(n) in events[..i]
    ensures states[i].live
    ensures Sub(sid, subject) in states[i].wire
      <==> 1 <= sid <= |Calls(events[..i])| && Calls(events[..i])[sid - 1] == subject
  {
    forall n ensures n !in states[i].pending { PendingIff(states, events, i, n); }
    assert states[i].pending == map[];
    SubsAreCalls(states, events, i);
    NoLostSubscription(states, events, i, Sub(sid, subject));
  }

  // ----- A reconnect goes through

  /**
   From a lost connection the turn of the reconnect loop can always be taken, step by step. If the
   dial succeeds and the connection lasts, it ends reading, on a wire that carries CONNECT and every
   subscription and nothing from before; if the dial fails the next turn starts over.
   */
  lemma ReconnectTurn(c: Conn, snapshot: Snapshot)
    requires c.reader.Retrying? && Lists(snapshot, c.subs)
    ensures Enabled(c, Close)
    ensures var c1 := Step(c, Close);
      && !c1.live && Enabled(c1, Dial(true)) && Enabled(c1, Dial(false))
      && Step(c1, Dial(false)) == c.(live := false, wire := [])
    ensures var c2 := Step(Step(c, Close), Dial(true));
      && Enabled(c2, TakeSnapshot(snapshot))
      && var c3 := Step(c2, TakeSnapshot(snapshot));
      && Enabled(c3, Resend) && Step(c3, Drop).reader == c3.reader
      && Step(c3, Resend) == c.(live := true, wire := [Connect] + SubLines(snapshot), reader := Reading)
      && Step(Step(c3, Drop), Resend) == c.(live := false, wire := [])
      && Step(Step(c3, Resend), Drop) == c.(live := false, wire := [])
  {
    assert [] + ([Connect] + SubLines(snapshot)) == [Connect] + SubLines(snapshot);
  }
}
