/**
 The dashboard's bus in terms of the calls made on it: which handlers are registered,
 what they hear, and where published messages go (dashboard/src/state/nats.ts,
 agent/internal/gateway/ws.go).
 */
module BusCalls {
  import opened Subjects
  import opened SubscriptionBus

  // ----- Handlers

  predicate Registers(b: Bus, p: Subject, h: nat) { p in b.handlers && h in b.handlers[p] }

  /** Whether the last call about handler `h` and pattern `p` was a subscribe. */
  function Subscribed(events: seq<Event>, p: Subject, h: nat): bool {
    if events == [] then false
    else
      var e := events[|events| - 1];
      if e == SubscribeCall(p, h) then true
      else if e == UnsubscribeCall(p, h) then false
      else Subscribed(events[..|events| - 1], p, h)
  }

  lemma AddKeepsHandlers(b: Bus, p: Subject)
    ensures AddServerSub(b, p).handlers == b.handlers && AddServerSub(b, p).keys == b.keys
  {
    hide Matches, Send, CoveredBy;
    var a := Absorb(b, p, b.server);
    AbsorbServer(b, p, b.server);
    SendFrame(a.(server := a.server + [p]), SubEnv(p));
  }

  lemma RemoveKeepsHandlers(b: Bus, p: Subject)
    ensures RemoveServerSub(b, p).handlers == b.handlers && RemoveServerSub(b, p).keys == b.keys
  {
    hide Matches, Send, CoveredBy, Without;
    var d := b.(server := Without(b.server, p));
    SendFrame(d, UnsubEnv(p));
    AdoptServer(Send(d, UnsubEnv(p)), b.keys);
  }

  lemma SubscribeRegisters(b: Bus, p: Subject, h: nat, q: Subject, g: nat)
    ensures Registers(Subscribe(b, p, h), q, g) <==> Registers(b, q, g) || (q == p && g == h)
  {
    hide AddServerSub;
    AddKeepsHandlers(b.(keys := b.keys + [p], handlers := b.handlers[p := {h}]), p);
  }

  /** Only the handler that leaves is forgotten, also where others share its pattern. */
  lemma UnsubscribeForgets(b: Bus, p: Subject, h: nat, q: Subject, g: nat)
    ensures Registers(Unsubscribe(b, p, h), q, g) <==> Registers(b, q, g) && !(q == p && g == h)
  {
    hide RemoveServerSub, Without;
    RemoveKeepsHandlers(b.(keys := Without(b.keys, p), handlers := b.handlers - {p}), p);
    if p in b.handlers && b.handlers[p] - {h} == {} && g in b.handlers[p] {
      assert g in b.handlers[p] - {h} || g == h;
    }
  }

  lemma StepRegisters(b: Bus, e: Event, p: Subject, h: nat)
    ensures Registers(Step(b, e), p, h)
      <==> if e == SubscribeCall(p, h) then true else if e == UnsubscribeCall(p, h) then false else Registers(b, p, h)
  {
    hide Subscribe, Unsubscribe, Send;
    match e
    case SubscribeCall(q, g) => SubscribeRegisters(b, q, g, p, h);
    case UnsubscribeCall(q, g) => UnsubscribeForgets(b, q, g, p, h);
    case Publish(q) => SendFrame(b, PubEnv(q));
    case _ =>
  }

  /** In every run a handler is registered exactly if the last call about it was a subscribe. */
  lemma {:induction false} RegisteredIff(u: iset<Subject>, states: seq<Bus>, events: seq<Event>, i: nat, p: Subject,
                                         h: nat)
    requires IsRun(u, states, events) && i < |states|
    ensures Registers(states[i], p, h) <==> Subscribed(events[..i], p, h)
    decreases i
  {
    hide Step;
    if i > 0 {
      RegisteredIff(u, states, events, i - 1, p, h);
      assert events[..i][..i - 1] == events[..i - 1];
      StepRegisters(states[i - 1], events[i - 1], p, h);
    }
  }

  /**
   No handler misses a message: in a run without shadowed or overreached patterns of the
   rover, while connected, a message that a subscribed handler's pattern asks for is
   delivered by the gateway and dispatched to that handler's pattern.
   */
  lemma NoHandlerMisses(u: iset<Subject>, states: seq<Bus>, events: seq<Event>, i: nat, p: Subject, h: nat, s: Subject)
    requires IsRun(u, states, events) && Protects(u, Served(states[0].rover)) && i < |states| && states[i].open
    requires Subscribed(events[..i], p, h) && Allowed(states[0].rover, p) && Concrete(s) && Denotes(p, s)
    ensures DeliveredBy(states[i], s) && Registers(states[i], p, h) && Dispatched(p, s)
  {
    RegisteredIff(u, states, events, i, p, h);
    InvAlong(u, Served(states[0].rover), states, events, i);
    DispatchedIff(p, s);
    hide Allowed, Synced, CoveredBy, IsRun;
    NoMissedMessage(u, states, events, i, p, s);
  }

  /** And none hears a message it did not ask for, or after it left. */
  lemma NoStrayCall(u: iset<Subject>, states: seq<Bus>, events: seq<Event>, i: nat, p: Subject, h: nat, s: Subject)
    requires IsRun(u, states, events) && i < |states| && Concrete(s)
    requires Registers(states[i], p, h) && Dispatched(p, s)
    ensures Subscribed(events[..i], p, h) && Denotes(p, s)
  {
    RegisteredIff(u, states, events, i, p, h);
    DispatchedIff(p, s);
  }

  // ----- Published messages

  function Published(es: seq<Envelope>): seq<Subject> {
    if es == [] then []
    else
      var e := es[|es| - 1];
      Published(es[..|es| - 1]) + if e.PubEnv? then [e.subject] else []
  }

  function PublishCalls(events: seq<Event>): seq<Subject> {
    if events == [] then []
    else
      var e := events[|events| - 1];
      PublishCalls(events[..|events| - 1]) + if e.Publish? then [e.p] else []
  }

  /** The messages handed to a socket, in order. */
  ghost function Transmitted(states: seq<Bus>, events: seq<Event>, i: nat): seq<Subject>
    requires i <= |events| < |states|
    decreases i
  {
    if i == 0 then []
    else
      var b, e := states[i - 1], events[i - 1];
      Transmitted(states, events, i - 1)
      + (if e.Publish? && b.open then [e.p] else if e.Open? && !b.open then Published(b.queue) else [])
  }

  lemma PublishedSend(b: Bus, e: Envelope)
    ensures Published(Send(b, e).queue)
         == Published(b.queue) + (if e.PubEnv? && !b.open then [e.subject] else [])
    ensures Send(b, e).open == b.open
  {
    if !b.open { assert (b.queue + [e])[..|b.queue|] == b.queue; }
  }

  /** The queued messages and the socket are what they were. */
  predicate SameMail(b: Bus, c: Bus) { Published(c.queue) == Published(b.queue) && c.open == b.open }

  lemma {:induction false} AbsorbMail(b: Bus, p: Subject, todo: seq<Subject>)
    ensures SameMail(b, Absorb(b, p, todo))
    decreases |todo|
  {
    hide Send, Published;
    if todo != [] {
      var c := b.(server := Without(b.server, todo[0]));
      PublishedSend(c, UnsubEnv(todo[0]));
      AbsorbMail(Send(c, UnsubEnv(todo[0])), p, todo[1..]);
      AbsorbMail(b, p, todo[1..]);
    }
  }

  lemma {:induction false} AdoptMail(b: Bus, todo: seq<Subject>)
    ensures SameMail(b, Adopt(b, todo))
    decreases |todo|
  {
    hide Send, Published;
    if todo != [] {
      PublishedSend(b.(server := b.server + [todo[0]]), SubEnv(todo[0]));
      AdoptMail(Registered(b, todo[0]), todo[1..]);
      AdoptMail(b, todo[1..]);
    }
  }

  lemma SubscribeMail(b: Bus, p: Subject, h: nat)
    ensures SameMail(b, Subscribe(b, p, h))
  {
    hide Send, Published;
    var c := b.(keys := b.keys + [p], handlers := b.handlers[p := {h}]);
    var a := Absorb(c, p, c.server);
    AbsorbMail(c, p, c.server);
    PublishedSend(a.(server := a.server + [p]), SubEnv(p));
  }

  lemma UnsubscribeMail(b: Bus, p: Subject, h: nat)
    ensures SameMail(b, Unsubscribe(b, p, h))
  {
    hide Send, Published, Without;
    var c := b.(keys := Without(b.keys, p), handlers := b.handlers - {p});
    var d := c.(server := Without(c.server, p));
    PublishedSend(d, UnsubEnv(p));
    AdoptMail(Send(d, UnsubEnv(p)), c.keys);
  }

  /** In every run each published message is handed to a socket once, in order, or still waits in the queue. */
  lemma {:induction false} PublishConserved(u: iset<Subject>, states: seq<Bus>, events: seq<Event>, i: nat)
    requires IsRun(u, states, events) && i < |states|
    ensures Transmitted(states, events, i) + Published(states[i].queue) == PublishCalls(events[..i])
    ensures states[i].open ==> Published(states[i].queue) == []
    decreases i
  {
    if i > 0 {
      PublishConserved(u, states, events, i - 1);
      assert events[..i][..i - 1] == events[..i - 1];
      var b, e := states[i - 1], events[i - 1];
      hide Subscribe, Unsubscribe, Send, Published, HandleAll;
      assert Published([]) == [] by { NothingPublished(); }
      match e
      case SubscribeCall(p, h) => SubscribeMail(b, p, h);
      case UnsubscribeCall(p, h) => UnsubscribeMail(b, p, h);
      case Publish(p) => PublishedSend(b, PubEnv(p));
      case _ =>
    }
  }

  lemma NothingPublished()
    ensures Published([]) == []
  {
  }

  // ----- The namespace

  lemma {:induction false} SplitFirst(a: string, rest: string)
    requires '.' !in a
    ensures Split(a + "." + rest) == [a] + Split(rest)
    decreases |a|
  {
    var s := a + "." + rest;
    if a == "" {
      assert s[1..] == rest;
    } else {
      assert a[0] in a;
      assert s[1..] == a[1..] + "." + rest;
      SplitFirst(a[1..], rest);
      assert [s[0]] + a[1..] == a;
    }
  }

  /** The prefix test that the gateway makes on the subject as text. */
  lemma AllowedIff(rover: string, s: string)
    requires '.' !in rover
    ensures Allowed(rover, Split(s)) <==> "waypoint." + rover + "." <= s
  {
    var prefix := "waypoint." + rover + ".";
    if prefix <= s {
      var rest := s[|prefix|..];
      assert s == "waypoint" + "." + (rover + "." + rest);
      SplitFirst("waypoint", rover + "." + rest);
      SplitFirst(rover, rest);
    }
    if Allowed(rover, Split(s)) {
      JoinSplit(s);
      var t := Split(s);
      assert t[1..][1..] == t[2..];
      assert Join(t) == "waypoint" + "." + Join(t[1..]) && Join(t[1..]) == rover + "." + Join(t[2..]);
      assert s == prefix + Join(t[2..]);
    }
  }
}
