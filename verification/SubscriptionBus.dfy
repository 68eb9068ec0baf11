/**
 The dashboard's subscription bus and the gateway it talks to: the Bus class of
 dashboard/src/state/nats.ts and the sub/unsub cases of agent/internal/gateway/ws.go.
 One socket at a time; the gateway handles an envelope when it is sent.
 */
module SubscriptionBus {
  import opened Prelude
  import opened Subjects

  datatype Envelope = SubEnv(subject: Subject) | UnsubEnv(subject: Subject) | PubEnv(subject: Subject)

  /**
   `keys` are the locally subscribed patterns in insertion order, `server` the
   patterns registered with the gateway, `gateway` what the gateway holds.
   */
  datatype Bus = Bus(rover: string, keys: seq<Subject>, handlers: map<Subject, set<nat>>,
                     server: seq<Subject>, queue: seq<Envelope>, open: bool, gateway: set<Subject>)

  // ----- Gateway

  /** Subjects below `waypoint.<rover>.` */
  predicate Allowed(rover: string, p: Subject) { |p| >= 3 && p[0] == "waypoint" && p[1] == rover }

  function Handle(rover: string, g: set<Subject>, e: Envelope): set<Subject> {
    if !Allowed(rover, e.subject) then g
    else match e
      case SubEnv(p) => g + {p}
      case UnsubEnv(p) => g - {p}
      case PubEnv(_) => g
  }

  function HandleAll(rover: string, g: set<Subject>, es: seq<Envelope>): set<Subject> {
    if es == [] then g else Handle(rover, HandleAll(rover, g, es[..|es| - 1]), es[|es| - 1])
  }

  // ----- Bus operations

  function Send(b: Bus, e: Envelope): Bus {
    if b.open then b.(gateway := Handle(b.rover, b.gateway, e)) else b.(queue := b.queue + [e])
  }

  /** Some pattern of `s` matches `p`. */
  predicate CoveredBy(s: seq<Subject>, p: Subject) { exists q | q in s :: Matches(q, p) }

  function Without(s: seq<Subject>, p: Subject): seq<Subject> {
    if s == [] then []
    else Without(s[..|s| - 1], p) + if s[|s| - 1] == p then [] else [s[|s| - 1]]
  }

  /** Drops from the server set what `p` matches, in order; `todo` is what is left to look at. */
  function Absorb(b: Bus, p: Subject, todo: seq<Subject>): Bus
    decreases |todo|
  {
    if todo == [] then b
    else if todo[0] != p && Matches(p, todo[0]) then
      Absorb(Send(b.(server := Without(b.server, todo[0])), UnsubEnv(todo[0])), p, todo[1..])
    else Absorb(b, p, todo[1..])
  }

  function Registered(b: Bus, p: Subject): Bus { Send(b.(server := b.server + [p]), SubEnv(p)) }

  function AddServerSub(b: Bus, p: Subject): Bus {
    if CoveredBy(b.server, p) then b else Registered(Absorb(b, p, b.server), p)
  }

  /** Registers every local pattern that nothing on the server matches. */
  function Adopt(b: Bus, todo: seq<Subject>): Bus
    decreases |todo|
  {
    if todo == [] then b
    else if todo[0] in b.server || CoveredBy(b.server, todo[0]) then Adopt(b, todo[1..])
    else Adopt(Registered(b, todo[0]), todo[1..])
  }

  function RemoveServerSub(b: Bus, p: Subject): Bus {
    if p !in b.server then b
    else Adopt(Send(b.(server := Without(b.server, p)), UnsubEnv(p)), b.keys)
  }

  function Subscribe(b: Bus, p: Subject, h: nat): Bus {
    if p in b.handlers then b.(handlers := b.handlers[p := b.handlers[p] + {h}])
    else AddServerSub(b.(keys := b.keys + [p], handlers := b.handlers[p := {h}]), p)
  }

  function Unsubscribe(b: Bus, p: Subject, h: nat): Bus {
    if p !in b.handlers then b
    else if b.handlers[p] - {h} != {} then b.(handlers := b.handlers[p := b.handlers[p] - {h}])
    else RemoveServerSub(b.(keys := Without(b.keys, p), handlers := b.handlers - {p}), p)
  }

  function SubEnvs(s: seq<Subject>): seq<Envelope> { seq(|s|, i requires 0 <= i < |s| => SubEnv(s[i])) }

  /** `onopen`: a fresh gateway session gets the server set, then the queue in order. */
  function Opened(b: Bus): Bus {
    b.(open := true, queue := [], gateway := HandleAll(b.rover, HandleAll(b.rover, {}, SubEnvs(b.server)), b.queue))
  }

  datatype Event =
    | SubscribeCall(p: Subject, h: nat)
    | UnsubscribeCall(p: Subject, h: nat)
    | Publish(p: Subject)
    | Open
    | Close

  function Step(b: Bus, e: Event): Bus {
    match e
    case SubscribeCall(p, h) => Subscribe(b, p, h)
    case UnsubscribeCall(p, h) => Unsubscribe(b, p, h)
    case Publish(p) => Send(b, PubEnv(p))
    case Open => if b.open then b else Opened(b)
    case Close => b.(open := false, gateway := {})
  }

  class BusObject {
    var state: Bus

    constructor (rover: string)
      ensures state == Bus(rover, [], map[], [], [], false, {})
    {
      state := Bus(rover, [], map[], [], [], false, {});
    }

    method Transmit(e: Envelope)
      modifies this
      ensures state == Send(old(state), e)
    {
      if state.open {
        state := state.(gateway := Handle(state.rover, state.gateway, e));
      } else {
        state := state.(queue := state.queue + [e]);
      }
    }

    method IsCovered(p: Subject) returns (r: bool)
      ensures r == CoveredBy(state.server, p)
    {
      for i := 0 to |state.server|
        invariant forall k | 0 <= k < i :: !Matches(state.server[k], p)
      {
        if Matches(state.server[i], p) { return true; }
      }
      r := false;
    }

    method AddServer(p: Subject)
      modifies this
      ensures state == AddServerSub(old(state), p)
    {
      hide Send, Matches;
      var covered := IsCovered(p);
      if covered { return; }
      var todo := state.server;
      for i := 0 to |todo|
        invariant Absorb(state, p, todo[i..]) == Absorb(old(state), p, todo)
      {
        if todo[i] != p && Matches(p, todo[i]) {
          state := state.(server := Without(state.server, todo[i]));
          Transmit(UnsubEnv(todo[i]));
        }
      }
      state := state.(server := state.server + [p]);
      Transmit(SubEnv(p));
    }

    method RemoveServer(p: Subject)
      modifies this
      ensures state == RemoveServerSub(old(state), p)
    {
      hide Send, CoveredBy;
      if p !in state.server { return; }
      var keys := state.keys;
      state := state.(server := Without(state.server, p));
      Transmit(UnsubEnv(p));
      for i := 0 to |keys|
        invariant Adopt(state, keys[i..]) == RemoveServerSub(old(state), p)
      {
        if keys[i] in state.server { continue; }
        var covered := IsCovered(keys[i]);
        if !covered {
          state := state.(server := state.server + [keys[i]]);
          Transmit(SubEnv(keys[i]));
        }
      }
    }

    method SubscribeHandler(p: Subject, h: nat)
      modifies this
      ensures state == Step(old(state), SubscribeCall(p, h))
    {
      var first := p !in state.handlers;
      if first { state := state.(keys := state.keys + [p], handlers := state.handlers[p := {}]); }
      state := state.(handlers := state.handlers[p := state.handlers[p] + {h}]);
      if first {
        assert state.handlers == old(state).handlers[p := {h}] by { assert {} + {h} == {h}; }
        AddServer(p);
      }
    }

    method UnsubscribeHandler(p: Subject, h: nat)
      modifies this
      ensures state == Step(old(state), UnsubscribeCall(p, h))
    {
      if p !in state.handlers { return; }
      var left := state.handlers[p] - {h};
      if left != {} {
        state := state.(handlers := state.handlers[p := left]);
        return;
      }
      state := state.(keys := Without(state.keys, p), handlers := state.handlers - {p});
      RemoveServer(p);
    }

    method OnOpen()
      requires !state.open
      modifies this
      ensures state == Step(old(state), Open)
    {
      var b := state;
      var g: set<Subject> := {};
      for i := 0 to |b.server|
        invariant g == HandleAll(b.rover, {}, SubEnvs(b.server)[..i])
      {
        assert SubEnvs(b.server)[..i + 1][..i] == SubEnvs(b.server)[..i];
        g := Handle(b.rover, g, SubEnv(b.server[i]));
      }
      assert SubEnvs(b.server)[..|b.server|] == SubEnvs(b.server);
      ghost var g0 := g;
      for i := 0 to |b.queue|
        invariant g == HandleAll(b.rover, g0, b.queue[..i])
      {
        assert b.queue[..i + 1][..i] == b.queue[..i];
        g := Handle(b.rover, g, b.queue[i]);
      }
      assert b.queue[..|b.queue|] == b.queue;
      state := b.(open := true, queue := [], gateway := g);
    }
  }

  // ----- The server set covers every local pattern

  /** Every local pattern in `w` is matched by some server subscription. */
  ghost predicate Covering(w: iset<Subject>, b: Bus) { forall k | k in b.keys && k in w :: CoveredBy(b.server, k) }

  ghost predicate Keyed(u: iset<Subject>, b: Bus) {
    && (forall k :: k in b.keys <==> k in b.handlers)
    && (forall k | k in b.keys :: k in u)
  }

  ghost predicate Inv(u: iset<Subject>, w: iset<Subject>, b: Bus) {
    && Keyed(u, b)
    && (forall q | q in b.server :: q in b.keys)
    && Covering(w, b)
    && Synced(b)
  }

  lemma {:induction false} WithoutElements(s: seq<Subject>, p: Subject)
    ensures forall q :: q in Without(s, p) <==> q in s && q != p
    decreases |s|
  {
    if s != [] {
      WithoutElements(s[..|s| - 1], p);
      assert s == s[..|s| - 1] + [s[|s| - 1]];
    }
  }

  lemma SendFrame(b: Bus, e: Envelope)
    ensures Send(b, e) == b.(queue := Send(b, e).queue, gateway := Send(b, e).gateway)
  {
  }

  /** Absorbing removes exactly the other patterns that `p` matches. */
  lemma {:induction false} AbsorbServer(b: Bus, p: Subject, todo: seq<Subject>)
    ensures var a := Absorb(b, p, todo);
      && a == b.(server := a.server, queue := a.queue, gateway := a.gateway)
      && forall q :: q in a.server <==> q in b.server && !(q in todo && q != p && Matches(p, q))
    decreases |todo|
  {
    hide Send, Matches, Without;
    if todo != [] {
      var t := todo[0];
      var b' := if t != p && Matches(p, t) then Send(b.(server := Without(b.server, t)), UnsubEnv(t)) else b;
      SendFrame(b.(server := Without(b.server, t)), UnsubEnv(t));
      WithoutElements(b.server, t);
      AbsorbServer(b', p, todo[1..]);
      assert forall q :: q in todo <==> q == t || q in todo[1..];
    }
  }

  lemma {:induction false} AdoptServer(b: Bus, todo: seq<Subject>)
    ensures var a := Adopt(b, todo);
      && a == b.(server := a.server, queue := a.queue, gateway := a.gateway)
      && (forall q | q in b.server :: q in a.server)
      && (forall q | q in a.server :: q in b.server || q in todo)
      && (forall k | k in todo :: CoveredBy(a.server, k))
    decreases |todo|
  {
    hide Send, Matches;
    if todo != [] {
      var t := todo[0];
      var b' := if t in b.server || CoveredBy(b.server, t) then b else Registered(b, t);
      SendFrame(b.(server := b.server + [t]), SubEnv(t));
      AdoptServer(b', todo[1..]);
      var a := Adopt(b, todo);
      assert forall q | q in b'.server :: q in a.server;
      MatchesSelf(t);
      assert CoveredBy(b'.server, t);
      assert CoveredBy(a.server, t);
      assert forall q :: q in todo <==> q == t || q in todo[1..];
    }
  }

  lemma MatchesSelf(p: Subject)
    ensures Matches(p, p)
  {
  }

  // ----- Gateway and server set stay in step

  /** The last operation queued on a subject. */
  function LastOp(es: seq<Envelope>, p: Subject): Option<Envelope> {
    if es == [] then None
    else
      var e := es[|es| - 1];
      if e.subject == p && !e.PubEnv? then Some(e) else LastOp(es[..|es| - 1], p)
  }

  lemma {:induction false} HandleAllResult(rover: string, g: set<Subject>, es: seq<Envelope>, p: Subject)
    ensures p in HandleAll(rover, g, es) <==>
      if !Allowed(rover, p) || LastOp(es, p).None? then p in g else LastOp(es, p) == Some(SubEnv(p))
    decreases |es|
  {
    if es != [] { HandleAllResult(rover, g, es[..|es| - 1], p); }
  }

  /**
   Connected: the gateway holds exactly the permitted part of the server set.
   Disconnected: the last queued operation on a subject is a sub if and only if the
   subject is in the server set.
   */
  ghost predicate Synced(b: Bus) {
    if b.open then b.queue == [] && forall p :: p in b.gateway <==> p in b.server && Allowed(b.rover, p)
    else
      forall p ::
        LastOp(b.queue, p) == None || LastOp(b.queue, p) == Some(if p in b.server then SubEnv(p) else UnsubEnv(p))
  }

  lemma SendSync(b: Bus, server: seq<Subject>, e: Envelope)
    requires Synced(b)
    requires e.SubEnv? ==> forall q :: q in server <==> q in b.server || q == e.subject
    requires e.UnsubEnv? ==> forall q :: q in server <==> q in b.server && q != e.subject
    requires e.PubEnv? ==> server == b.server
    ensures Synced(Send(b.(server := server), e))
  {
    if !b.open {
      var es := b.queue + [e];
      assert es[..|es| - 1] == b.queue;
    }
  }

  lemma {:induction false} AbsorbSync(b: Bus, p: Subject, todo: seq<Subject>)
    requires Synced(b)
    ensures Synced(Absorb(b, p, todo))
    decreases |todo|
  {
    if todo != [] {
      hide Synced, Send, Matches;
      WithoutElements(b.server, todo[0]);
      SendSync(b, Without(b.server, todo[0]), UnsubEnv(todo[0]));
      if todo[0] != p && Matches(p, todo[0]) {
        AbsorbSync(Send(b.(server := Without(b.server, todo[0])), UnsubEnv(todo[0])), p, todo[1..]);
      } else {
        AbsorbSync(b, p, todo[1..]);
      }
    }
  }

  lemma {:induction false} AdoptSync(b: Bus, todo: seq<Subject>)
    requires Synced(b)
    ensures Synced(Adopt(b, todo))
    decreases |todo|
  {
    if todo != [] {
      hide Synced, Send, CoveredBy;
      SendSync(b, b.server + [todo[0]], SubEnv(todo[0]));
      if todo[0] in b.server || CoveredBy(b.server, todo[0]) {
        AdoptSync(b, todo[1..]);
      } else {
        AdoptSync(Registered(b, todo[0]), todo[1..]);
      }
    }
  }

  lemma {:induction false} SubEnvsLast(s: seq<Subject>, p: Subject)
    ensures LastOp(SubEnvs(s), p) == if p in s then Some(SubEnv(p)) else None
    decreases |s|
  {
    if s != [] {
      assert SubEnvs(s)[..|s| - 1] == SubEnvs(s[..|s| - 1]);
      SubEnvsLast(s[..|s| - 1], p);
      assert s == s[..|s| - 1] + [s[|s| - 1]];
    }
  }

  lemma OpenSync(b: Bus)
    requires Synced(b) && !b.open
    ensures Synced(Opened(b))
  {
    var g := HandleAll(b.rover, {}, SubEnvs(b.server));
    forall p ensures p in Opened(b).gateway <==> p in b.server && Allowed(b.rover, p) {
      SubEnvsLast(b.server, p);
      HandleAllResult(b.rover, {}, SubEnvs(b.server), p);
      HandleAllResult(b.rover, g, b.queue, p);
    }
  }

  // ----- Every operation keeps the invariant

  lemma CoverOf(s: seq<Subject>, p: Subject) returns (q: Subject)
    requires CoveredBy(s, p)
    ensures q in s && Matches(q, p)
  {
    q :| q in s && Matches(q, p);
  }

  lemma Covers(s: seq<Subject>, q: Subject, p: Subject)
    requires q in s && Matches(q, p)
    ensures CoveredBy(s, p)
  {
  }

  lemma AddInv(u: iset<Subject>, w: iset<Subject>, b: Bus, p: Subject)
    requires Protects(u, w) && p in u && p in b.keys
    requires Inv(u, w, b.(keys := Without(b.keys, p), handlers := b.handlers - {p})) && p in b.handlers
    ensures Inv(u, w, AddServerSub(b, p))
  {
    hide Synced, Matches, Send, CoveredBy, Protects;
    WithoutElements(b.keys, p);
    var b0 := b.(keys := Without(b.keys, p), handlers := b.handlers - {p});
    assert Synced(b) by { SyncedFrame(b0, b); }
    assert Keyed(u, b);
    hide Keyed;
    if !CoveredBy(b.server, p) {
      var a := Absorb(b, p, b.server);
      AbsorbServer(b, p, b.server);
      AbsorbSync(b, p, b.server);
      SendFrame(a.(server := a.server + [p]), SubEnv(p));
      SendSync(a, a.server + [p], SubEnv(p));
      var c := Registered(a, p);
      KeyedFrame(u, b, c);
      MatchesSelf(p);
      forall k | k in b.keys && k in w ensures CoveredBy(c.server, k) {
        if k == p {
          Covers(c.server, p, p);
        } else {
          assert k in b0.keys;
          var q := CoverOf(b.server, k);
          if q !in a.server {
            ProtectedTransitive(u, w, p, q, k);
            Covers(c.server, p, k);
          } else {
            Covers(c.server, q, k);
          }
        }
      }
    }
  }

  /** Synchrony looks at the server set, the queue and the gateway only. */
  lemma SyncedFrame(b: Bus, c: Bus)
    requires Synced(b) && c == b.(keys := c.keys, handlers := c.handlers)
    ensures Synced(c)
  {
  }

  lemma RemoveServerInv(u: iset<Subject>, w: iset<Subject>, b: Bus, p: Subject)
    requires Keyed(u, b) && Synced(b) && p !in b.keys
    requires forall q | q in b.server :: q in b.keys || q == p
    requires p !in b.server ==> Covering(w, b)
    ensures Inv(u, w, RemoveServerSub(b, p))
  {
    hide Synced, Matches, Send, CoveredBy, Keyed;
    if p in b.server {
      WithoutElements(b.server, p);
      var c := Send(b.(server := Without(b.server, p)), UnsubEnv(p));
      SendFrame(b.(server := Without(b.server, p)), UnsubEnv(p));
      SendSync(b, Without(b.server, p), UnsubEnv(p));
      AdoptServer(c, b.keys);
      AdoptSync(c, b.keys);
      KeyedFrame(u, b, Adopt(c, b.keys));
    }
  }

  lemma KeyedFrame(u: iset<Subject>, b: Bus, c: Bus)
    requires Keyed(u, b) && c.keys == b.keys && c.handlers == b.handlers
    ensures Keyed(u, c)
  {
  }

  lemma RemoveInv(u: iset<Subject>, w: iset<Subject>, b: Bus, p: Subject)
    requires Inv(u, w, b) && p in b.handlers
    ensures Inv(u, w, RemoveServerSub(b.(keys := Without(b.keys, p), handlers := b.handlers - {p}), p))
  {
    hide Synced, CoveredBy, RemoveServerSub, Without;
    var b0 := b.(keys := Without(b.keys, p), handlers := b.handlers - {p});
    WithoutElements(b.keys, p);
    SyncedFrame(b, b0);
    RemoveServerInv(u, w, b0, p);
  }

  ghost predicate Over(u: iset<Subject>, e: Event) {
    match e
    case SubscribeCall(p, _) => p in u
    case UnsubscribeCall(p, _) => p in u
    case _ => true
  }

  lemma InvStep(u: iset<Subject>, w: iset<Subject>, b: Bus, e: Event)
    requires Protects(u, w) && Inv(u, w, b) && Over(u, e)
    ensures Inv(u, w, Step(b, e))
  {
    hide CoveredBy, Synced, Protects, AddServerSub, RemoveServerSub, Send;
    match e
    case SubscribeCall(p, h) =>
      if p !in b.handlers {
        var c := b.(keys := b.keys + [p], handlers := b.handlers[p := {h}]);
        NewKey(b, p, h);
        AddInv(u, w, c, p);
      } else {
        SyncedFrame(b, Subscribe(b, p, h));
      }
    case UnsubscribeCall(p, h) =>
      if p in b.handlers {
        if b.handlers[p] - {h} == {} { RemoveInv(u, w, b, p); } else { SyncedFrame(b, Unsubscribe(b, p, h)); }
      }
    case Publish(p) => SendSync(b, b.server, PubEnv(p)); SendFrame(b, PubEnv(p));
    case Open => if !b.open { OpenSync(b); }
    case Close => CloseSync(b);
  }

  lemma CloseSync(b: Bus)
    requires Synced(b)
    ensures Synced(b.(open := false, gateway := {}))
  {
  }

  lemma NewKey(b: Bus, p: Subject, h: nat)
    requires p !in b.keys && p !in b.handlers
    ensures Without(b.keys + [p], p) == b.keys && b.handlers[p := {h}] - {p} == b.handlers
  {
    var s := b.keys + [p];
    assert s[..|s| - 1] == b.keys;
    WithoutAbsent(b.keys, p);
  }

  lemma {:induction false} WithoutAbsent(s: seq<Subject>, p: Subject)
    requires p !in s
    ensures Without(s, p) == s
    decreases |s|
  {
    if s != [] {
      WithoutAbsent(s[..|s| - 1], p);
      assert s[|s| - 1] in s;
    }
  }

  ghost predicate IsRun(u: iset<Subject>, states: seq<Bus>, events: seq<Event>) {
    && |states| == |events| + 1
    && states[0] == Bus(states[0].rover, [], map[], [], [], false, {})
    && forall i | 0 <= i < |events| :: Over(u, events[i]) && states[i + 1] == Step(states[i], events[i])
  }

  lemma {:induction false} InvAlong(u: iset<Subject>, w: iset<Subject>, states: seq<Bus>, events: seq<Event>, i: nat)
    requires Protects(u, w) && IsRun(u, states, events) && i < |states|
    ensures Inv(u, w, states[i]) && states[i].rover == states[0].rover
    decreases i
  {
    hide Step;
    if i > 0 {
      InvAlong(u, w, states, events, i - 1);
      InvStep(u, w, states[i - 1], events[i - 1]);
      StepRover(states[i - 1], events[i - 1]);
    }
  }

  lemma StepRover(b: Bus, e: Event)
    ensures Step(b, e).rover == b.rover
  {
    hide Send, Matches, Without;
    match e
    case SubscribeCall(p, h) =>
      var c := b.(keys := b.keys + [p], handlers := b.handlers[p := {h}]);
      AbsorbServer(c, p, c.server);
      SendFrame(Absorb(c, p, c.server).(server := Absorb(c, p, c.server).server + [p]), SubEnv(p));
    case UnsubscribeCall(p, h) =>
      var c := b.(keys := Without(b.keys, p), handlers := b.handlers - {p});
      SendFrame(c.(server := Without(b.server, p)), UnsubEnv(p));
      AdoptServer(Send(c.(server := Without(b.server, p)), UnsubEnv(p)), c.keys);
    case Publish(p) => SendFrame(b, PubEnv(p));
    case _ =>
  }

  // ----- What the dashboard gets out of it

  /** Each local pattern is contained in one on the server. */
  ghost predicate LanguageCover(b: Bus) { forall k | k in b.keys :: exists q | q in b.server :: Contains(q, k) }

  lemma CoverIsLanguageCover(u: iset<Subject>, b: Bus)
    requires Safe(u) && Inv(u, u, b)
    ensures LanguageCover(b)
  {
    hide Inv, Contains, Safe;
    forall k | k in b.keys ensures exists q | q in b.server :: Contains(q, k) {
      var q := LanguageCoverOf(u, b, k);
    }
  }

  ghost predicate AlwaysCovers(u: iset<Subject>) {
    forall states: seq<Bus>, events: seq<Event>, i | IsRun(u, states, events) && 0 <= i < |states|
      :: LanguageCover(states[i])
  }

  /** After subscribing `q` and then a `p` that `q` matches, only `q` is on the server. */
  lemma SecondSuppressed(rover: string, q: Subject, p: Subject)
    requires q != p && Matches(q, p)
    ensures var b := Bus(rover, [], map[], [], [], false, {});
      var b' := Subscribe(Subscribe(b, q, 0), p, 0); b'.server == [q] && p in b'.keys
  {
    hide Matches;
    var b := Bus(rover, [], map[], [], [], false, {});
    var b1 := Subscribe(b, q, 0);
    assert b1.server == [q] && b1.handlers == map[q := {0}] && b1.keys == [q];
  }

  /**
   The safe sets of valid patterns are exactly those over which no run of subscribes,
   unsubscribes and reconnects ever leaves a local pattern without its messages.
   */
  lemma AlwaysCoversIff(u: iset<Subject>)
    requires forall p | p in u :: Valid(p)
    ensures AlwaysCovers(u) <==> Safe(u)
  {
    if Safe(u) {
      forall states: seq<Bus>, events: seq<Event>, i | IsRun(u, states, events) && 0 <= i < |states|
        ensures LanguageCover(states[i])
      {
        InvAlong(u, u, states, events, i);
        CoverIsLanguageCover(u, states[i]);
      }
    } else {
      var q, p :| q in u && p in u && Matches(q, p) && Overreach(q, p);
      Unsafe(u, q, p);
    }
  }

  lemma Unsafe(u: iset<Subject>, q: Subject, p: Subject)
    requires q in u && p in u && Valid(q) && Valid(p) && Matches(q, p) && Overreach(q, p)
    ensures !AlwaysCovers(u)
  {
    assert q[|q| - 1] != p[|p| - 1];
    SecondSuppressed("", q, p);
    var b := Bus("", [], map[], [], [], false, {});
    hide Subscribe;
    var b1 := Subscribe(b, q, 0);
    var b2 := Subscribe(b1, p, 0);
    var states, events := [b, b1, b2], [SubscribeCall(q, 0), SubscribeCall(p, 0)];
    assert IsRun(u, states, events);
    ContainsIff(q, p);
    assert p in states[2].keys && !LanguageCover(states[2]);
  }

  lemma LanguageCoverOf(u: iset<Subject>, b: Bus, k: Subject) returns (q: Subject)
    requires Safe(u) && Inv(u, u, b) && k in b.keys
    ensures q in b.server && q in u && Contains(q, k)
  {
    hide CoveredBy, Contains;
    q := CoverOf(b.server, k);
    ContainsIff(q, k);
  }

  lemma SyncStep(b: Bus, e: Event)
    requires Synced(b)
    ensures Synced(Step(b, e))
  {
    hide Synced, Send, CoveredBy, Absorb, Adopt, Without;
    match e
    case SubscribeCall(p, h) =>
      var c := b.(keys := b.keys + [p], handlers := b.handlers[p := {h}]);
      SyncedFrame(b, c);
      AbsorbSync(c, p, c.server);
      var a := Absorb(c, p, c.server);
      SendSync(a, a.server + [p], SubEnv(p));
      if p in b.handlers { SyncedFrame(b, Subscribe(b, p, h)); }
    case UnsubscribeCall(p, h) =>
      var c := b.(keys := Without(b.keys, p), handlers := b.handlers - {p});
      SyncedFrame(b, c);
      WithoutElements(b.server, p);
      SendSync(c, Without(b.server, p), UnsubEnv(p));
      AdoptSync(Send(c.(server := Without(b.server, p)), UnsubEnv(p)), c.keys);
      if p in b.handlers { SyncedFrame(b, b.(handlers := b.handlers[p := b.handlers[p] - {h}])); }
    case Publish(p) => SendSync(b, b.server, PubEnv(p));
    case Open => if !b.open { OpenSync(b); }
    case Close => CloseSync(b);
  }

  lemma {:induction false} SyncAlong(u: iset<Subject>, states: seq<Bus>, events: seq<Event>, i: nat)
    requires IsRun(u, states, events) && i < |states|
    ensures Synced(states[i]) && states[i].rover == states[0].rover
    decreases i
  {
    if i > 0 {
      hide Step, Synced;
      SyncAlong(u, states, events, i - 1);
      SyncStep(states[i - 1], events[i - 1]);
      StepRover(states[i - 1], events[i - 1]);
    }
  }

  /**
   Reconnect equivalence, for any patterns and any interleaving of calls with
   disconnects: whenever the socket is open nothing is queued and the gateway holds
   exactly the permitted part of the server set.
   */
  lemma GatewayInSync(u: iset<Subject>, states: seq<Bus>, events: seq<Event>, i: nat, p: Subject)
    requires IsRun(u, states, events) && i < |states| && states[i].open
    ensures states[i].queue == []
    ensures p in states[i].gateway <==> p in states[i].server && Allowed(states[0].rover, p)
  {
    SyncAlong(u, states, events, i);
  }

  // ----- Local dispatch

  predicate HasWildChar(p: Subject) { exists t | t in p :: '*' in t || '>' in t }

  /** `onmessage`: the exact entry, then every other entry with a wildcard character that matches. */
  predicate Dispatched(p: Subject, s: Subject) { p == s || (HasWildChar(p) && Matches(p, s)) }

  lemma {:induction false} PlainDenotes(p: Subject, s: Subject)
    requires (forall t | t in p :: !Wild(t)) && Denotes(p, s)
    ensures p == s
    decreases |p|
  {
    if p != [] {
      assert p[0] in p;
      PlainDenotes(p[1..], s[1..]);
      assert p == [p[0]] + p[1..];
    }
  }

  /** A delivered message reaches the handlers of exactly the patterns that denote its subject. */
  lemma DispatchedIff(p: Subject, s: Subject)
    requires Concrete(s)
    ensures Dispatched(p, s) <==> Denotes(p, s)
  {
    MatchesConcrete(p, s);
    if Denotes(p, s) && !HasWildChar(p) {
      forall t | t in p ensures !Wild(t) { assert '*' in ANY && '>' in REST; }
      PlainDenotes(p, s);
    }
  }

  // ----- Patterns outside the gateway's namespace

  /** No pattern that the gateway ignores matches one that it serves. */
  ghost predicate NoShadow(u: iset<Subject>, rover: string) {
    forall q, p | q in u && p in u && Matches(q, p) && Allowed(rover, p) :: Allowed(rover, q)
  }

  /** No two patterns that it serves have the overreaching shape. */
  ghost predicate NoOverreach(u: iset<Subject>, rover: string) {
    forall q, p | q in u && p in u && Allowed(rover, q) && Allowed(rover, p) && Matches(q, p) :: !Overreach(q, p)
  }

  ghost function Served(rover: string): iset<Subject> { iset p: Subject | Allowed(rover, p) }

  ghost predicate AlwaysDelivers(u: iset<Subject>, rover: string) {
    forall states: seq<Bus>, events: seq<Event>, i, k, s
      | IsRun(u, states, events) && 0 <= i < |states| && states[0].rover == rover && states[i].open
        && k in states[i].keys && Allowed(rover, k) && Concrete(s) && Denotes(k, s)
      :: DeliveredBy(states[i], s)
  }

  ghost predicate DeliveredBy(b: Bus, s: Subject) { exists q | q in b.gateway :: Denotes(q, s) }

  /**
   No missed message: connected, and with nothing shadowed, every message a local
   pattern of this rover asks for is delivered by some gateway subscription.
   */
  lemma NoMissedMessage(u: iset<Subject>, states: seq<Bus>, events: seq<Event>, i: nat, k: Subject, s: Subject)
    requires IsRun(u, states, events) && Protects(u, Served(states[0].rover)) && i < |states| && states[i].open
    requires k in states[i].keys && Allowed(states[0].rover, k) && Concrete(s) && Denotes(k, s)
    ensures DeliveredBy(states[i], s)
  {
    hide CoveredBy, Allowed;
    InvAlong(u, Served(states[0].rover), states, events, i);
    var q := CoverOf(states[i].server, k);
    ContainsIff(q, k);
    assert q in states[i].gateway;
  }

  lemma ShadowRun(u: iset<Subject>, rover: string, q: Subject, p: Subject)
      returns (states: seq<Bus>, events: seq<Event>)
    requires q in u && p in u && q != p && Matches(q, p)
    ensures IsRun(u, states, events) && |states| == 4 && states[0].rover == rover
    ensures states[3].open && states[3].server == [q] && p in states[3].keys
  {
    SecondSuppressed(rover, q, p);
    var b := Bus(rover, [], map[], [], [], false, {});
    hide Subscribe, Allowed, Matches, HandleAll;
    events := [SubscribeCall(q, 0), SubscribeCall(p, 0), Open];
    var b1 := Subscribe(b, q, 0);
    var b2 := Subscribe(b1, p, 0);
    StepOpen(b, q);
    StepOpen(b1, p);
    states := [b, b1, b2, Opened(b2)];
  }

  lemma Shadowed(u: iset<Subject>, rover: string, q: Subject, p: Subject)
    requires q in u && p in u && Valid(p) && Matches(q, p) && Allowed(rover, p) && !Allowed(rover, q)
    ensures !AlwaysDelivers(u, rover)
  {
    hide Allowed, IsRun, Matches, Instance;
    var states, events := ShadowRun(u, rover, q, p);
    var s := Instance(p, "x");
    assert "x"[0] != ANY[0] && "x"[0] != REST[0];
    InstanceDenoted(p, "x");
    forall g ensures g !in states[3].gateway { GatewayInSync(u, states, events, 3, g); }
    assert !DeliveredBy(states[3], s) && p in states[3].keys;
  }

  lemma Overreached(u: iset<Subject>, rover: string, q: Subject, p: Subject)
    requires q in u && p in u && Valid(q) && Valid(p) && Matches(q, p) && Overreach(q, p) && Allowed(rover, q)
        && Allowed(rover, p)
    ensures !AlwaysDelivers(u, rover)
  {
    hide Allowed, IsRun, Matches;
    assert q[|q| - 1] != p[|p| - 1];
    var states, events := ShadowRun(u, rover, q, p);
    ContainsIff(q, p);
    var s :| Concrete(s) && Denotes(p, s) && !Denotes(q, s);
    forall g | g in states[3].gateway ensures g == q { GatewayInSync(u, states, events, 3, g); }
    assert !DeliveredBy(states[3], s) && p in states[3].keys;
  }

  lemma StepOpen(b: Bus, p: Subject)
    requires !b.open
    ensures !Subscribe(b, p, 0).open
  {
    hide Send, Matches, Without;
    var c := b.(keys := b.keys + [p], handlers := b.handlers[p := {0}]);
    AbsorbServer(c, p, c.server);
    SendFrame(Absorb(c, p, c.server).(server := Absorb(c, p, c.server).server + [p]), SubEnv(p));
  }

  /**
   The reduction and the gateway's namespace filter fit together exactly when no
   pattern in use shadows one of the rover's from outside its namespace, and none
   overreaches another inside it.
   */
  lemma AlwaysDeliversIff(u: iset<Subject>, rover: string)
    requires forall p | p in u :: Valid(p)
    ensures AlwaysDelivers(u, rover) <==> NoShadow(u, rover) && NoOverreach(u, rover)
  {
    hide IsRun, Allowed, Matches, DeliveredBy, Overreach;
    if !NoShadow(u, rover) {
      var q, p :| q in u && p in u && Matches(q, p) && Allowed(rover, p) && !Allowed(rover, q);
      Shadowed(u, rover, q, p);
    } else if !NoOverreach(u, rover) {
      var q, p :| q in u && p in u && Allowed(rover, q) && Allowed(rover, p) && Matches(q, p) && Overreach(q, p);
      Overreached(u, rover, q, p);
    } else {
      assert Protects(u, Served(rover));
      forall states: seq<Bus>, events: seq<Event>, i, k, s
        | IsRun(u, states, events) && 0 <= i < |states| && states[0].rover == rover && states[i].open
          && k in states[i].keys && Allowed(rover, k) && Concrete(s) && Denotes(k, s)
        ensures DeliveredBy(states[i], s)
      {
        NoMissedMessage(u, states, events, i, k, s);
      }
    }
  }
}
