/**
 One frame per message: what the server set of dashboard/src/state/nats.ts is reduced for,
 since the gateway of agent/internal/gateway/ws.go delivers once per subscription.
 */
module SingleDelivery {
  import opened Subjects
  import opened SubscriptionBus
  import opened ServerAntichain

  // ----- Patterns with a subject in common

  predicate Meets(p: Subject, q: Subject)
    decreases |p|
  {
    if p == [] || q == [] then p == q
    else if p[0] == REST || q[0] == REST then true
    else (p[0] == ANY || q[0] == ANY || p[0] == q[0]) && Meets(p[1..], q[1..])
  }

  lemma {:induction false} MeetIn(p: Subject, q: Subject, s: Subject)
    requires Denotes(p, s) && Denotes(q, s)
    ensures Meets(p, q)
    decreases |p|
  {
    if p != [] && q != [] && p[0] != REST && q[0] != REST { MeetIn(p[1..], q[1..], s[1..]); }
  }

  lemma {:induction false} Common(p: Subject, q: Subject) returns (s: Subject)
    requires Valid(p) && Valid(q) && Meets(p, q)
    ensures Concrete(s) && Denotes(p, s) && Denotes(q, s)
    decreases |p|
  {
    assert "x"[0] != ANY[0] && "x"[0] != REST[0];
    if p == [] {
      s := [];
    } else if p[0] == REST {
      s := Instance(q, "x");
      InstanceDenoted(q, "x");
    } else if q[0] == REST {
      s := Instance(p, "x");
      InstanceDenoted(p, "x");
    } else {
      var tail := Common(p[1..], q[1..]);
      s := [if p[0] != ANY then p[0] else if q[0] != ANY then q[0] else "x"] + tail;
      assert s[1..] == tail;
    }
  }

  /** Two patterns share a concrete subject exactly if they meet token by token. */
  lemma MeetsIff(p: Subject, q: Subject)
    requires Valid(p) && Valid(q)
    ensures Meets(p, q) <==> exists s :: Concrete(s) && Denotes(p, s) && Denotes(q, s)
  {
    if Meets(p, q) { var s := Common(p, q); }
    forall s | Concrete(s) && Denotes(p, s) && Denotes(q, s) ensures Meets(p, q) { MeetIn(p, q, s); }
  }

  // ----- What can make the gateway deliver twice

  /** Patterns of the rover that meet are nested. */
  ghost predicate NoCrossing(u: iset<Subject>, rover: string) {
    forall p, q | p in u && q in u && Allowed(rover, p) && Allowed(rover, q) && Meets(p, q)
      :: Matches(p, q) || Matches(q, p)
  }

  /** No pattern of the rover lies between two others. */
  ghost predicate NoChain(u: iset<Subject>, rover: string) {
    forall p, q, r | p in u && q in u && r in u && Allowed(rover, p) && Allowed(rover, q) && p != q && q != r
                     && Matches(r, q) :: !Matches(q, p)
  }

  ghost predicate AtMostOnce(b: Bus, s: Subject) {
    forall g, h | g in b.gateway && h in b.gateway && Denotes(g, s) && Denotes(h, s) :: g == h
  }

  /** Connected, every message that a local pattern of the rover asks for is delivered exactly once. */
  ghost predicate AlwaysOnce(u: iset<Subject>, rover: string) {
    forall states: seq<Bus>, events: seq<Event>, i, k, s
      | IsRun(u, states, events) && 0 <= i < |states| && states[0].rover == rover && states[i].open
        && k in states[i].keys && Allowed(rover, k) && Concrete(s) && Denotes(k, s)
      :: DeliveredBy(states[i], s) && AtMostOnce(states[i], s)
  }

  lemma ProtectedAntisymmetric(u: iset<Subject>, w: iset<Subject>, a: Subject, b: Subject)
    requires Protects(u, w) && a in u && b in u && a in w && b in w && Matches(a, b) && Matches(b, a)
    ensures a == b
  {
    if a != b { DenotesBothWays(a, b); }
  }

  // ----- Without crossings and chains the rover's server patterns stay apart

  ghost predicate Sparse(rover: string, s: seq<Subject>) {
    forall a, c | a in s && c in s && a != c && Allowed(rover, a) && Allowed(rover, c) :: !Matches(a, c)
  }

  lemma AddSparse(rover: string, b: Bus, p: Subject)
    requires Sparse(rover, b.server)
    ensures Sparse(rover, AddServerSub(b, p).server)
  {
    hide Matches, Send, Allowed;
    var a := Absorb(b, p, b.server);
    AbsorbServer(b, p, b.server);
    SendFrame(a.(server := a.server + [p]), SubEnv(p));
  }

  /** A pattern orphaned by the removal of `p` was covered by `p`, so it lies above nothing. */
  lemma OrphanedBy(u: iset<Subject>, rover: string, b: Bus, p: Subject, a: Subject, c: Subject)
    requires Inv(u, Served(rover), b) && NoChain(u, rover) && p in b.server
    requires a in b.keys && a != p && Allowed(rover, a) && Orphan(Without(b.server, p), a)
    requires c in b.keys && c != a && Allowed(rover, c)
    ensures !Matches(a, c)
  {
    hide Matches, CoveredBy, Synced, Allowed, Without;
    var r := CoverOf(b.server, a);
    WithoutElements(b.server, p);
    if r != p { Covers(Without(b.server, p), r, a); }
  }

  lemma RemoveSparse(u: iset<Subject>, rover: string, b: Bus, p: Subject)
    requires Inv(u, Served(rover), b) && NoChain(u, rover) && Sparse(rover, b.server)
    ensures Sparse(rover, RemoveServerSub(b.(keys := Without(b.keys, p), handlers := b.handlers - {p}), p).server)
  {
    hide Inv, NoChain, Matches, Send, CoveredBy, Adopt, Allowed, Added;
    if p in b.server {
      var left := b.(keys := Without(b.keys, p), handlers := b.handlers - {p});
      var s, todo := Without(b.server, p), left.keys;
      WithoutElements(b.keys, p);
      WithoutElements(b.server, p);
      ServerKeys(u, rover, b);
      var d := left.(server := s);
      var c := Send(d, UnsubEnv(p));
      SendFrame(d, UnsubEnv(p));
      forall x, y | x in Adopt(c, todo).server && y in Adopt(c, todo).server && x != y
                    && Allowed(rover, x) && Allowed(rover, y) ensures !Matches(x, y) {
        AdoptResult(c, todo, x);
        AdoptResult(c, todo, y);
        ResultKind(s, todo, x);
        ResultKind(s, todo, y);
        if x !in s {
          OrphanedBy(u, rover, b, p, x, y);
        } else if y !in s {
          OrphanUncovered(s, x, y);
        }
      }
    }
  }

  lemma ServerKeys(u: iset<Subject>, rover: string, b: Bus)
    requires Inv(u, Served(rover), b)
    ensures forall q | q in b.server :: q in b.keys
  {
  }

  lemma ResultKind(s: seq<Subject>, todo: seq<Subject>, q: Subject)
    requires Result(s, todo, q)
    ensures q in s || (q in todo && Orphan(s, q))
  {
    hide CoveredBy, Matches;
  }

  lemma OrphanUncovered(s: seq<Subject>, x: Subject, y: Subject)
    requires x in s && Orphan(s, y)
    ensures !Matches(x, y)
  {
    hide Matches;
  }

  lemma SparseStep(u: iset<Subject>, rover: string, b: Bus, e: Event)
    requires Inv(u, Served(rover), b) && NoChain(u, rover) && Sparse(rover, b.server)
    ensures Sparse(rover, Step(b, e).server)
  {
    hide Inv, NoChain, Sparse, AddServerSub, RemoveServerSub, Send;
    match e
    case SubscribeCall(p, h) =>
      if p !in b.handlers { AddSparse(rover, b.(keys := b.keys + [p], handlers := b.handlers[p := {h}]), p); }
    case UnsubscribeCall(p, h) => if p in b.handlers && b.handlers[p] - {h} == {} { RemoveSparse(u, rover, b, p); }
    case Publish(p) => SendFrame(b, PubEnv(p));
    case _ =>
  }

  lemma {:induction false} SparseAlong(u: iset<Subject>, states: seq<Bus>, events: seq<Event>, i: nat)
    requires IsRun(u, states, events) && i < |states|
    requires Protects(u, Served(states[0].rover)) && NoChain(u, states[0].rover)
    ensures Sparse(states[0].rover, states[i].server)
    decreases i
  {
    var rover := states[0].rover;
    hide Step, Protects, NoChain;
    if i > 0 {
      SparseAlong(u, states, events, i - 1);
      InvAlong(u, Served(rover), states, events, i - 1);
      SparseStep(u, rover, states[i - 1], events[i - 1]);
    }
  }

  /** Connected, no message of the rover is delivered twice. */
  lemma NoSecondFrame(u: iset<Subject>, states: seq<Bus>, events: seq<Event>, i: nat, s: Subject)
    requires IsRun(u, states, events) && i < |states| && states[i].open && Concrete(s)
    requires Protects(u, Served(states[0].rover))
    requires NoCrossing(u, states[0].rover) && NoChain(u, states[0].rover)
    ensures AtMostOnce(states[i], s)
  {
    hide Protects, NoChain, Matches, Allowed, CoveredBy, Synced, Meets, Denotes, IsRun;
    var rover := states[0].rover;
    SparseAlong(u, states, events, i);
    InvAlong(u, Served(rover), states, events, i);
    forall g, h | g in states[i].gateway && h in states[i].gateway && Denotes(g, s) && Denotes(h, s) ensures g == h {
      GatewayInSync(u, states, events, i, g);
      GatewayInSync(u, states, events, i, h);
      MeetIn(g, h, s);
      MeetIn(h, g, s);
    }
  }

  // ----- Runs that deliver twice

  lemma SubscribeBeside(b: Bus, p: Subject, q: Subject)
    requires b.server == [q] && p !in b.handlers && !Matches(p, q) && !Matches(q, p)
    ensures var c := Subscribe(b, p, 0); c.server == [q, p] && c.keys == b.keys + [p]
  {
    hide Matches, Send;
    var d := b.(keys := b.keys + [p], handlers := b.handlers[p := {0}]);
    assert [q][1..] == [];
    assert Absorb(d, p, [q]) == d;
    SendFrame(d.(server := [q] + [p]), SubEnv(p));
  }

  lemma CrossingRun(u: iset<Subject>, rover: string, p: Subject, q: Subject)
      returns (states: seq<Bus>, events: seq<Event>)
    requires p in u && q in u && !Matches(p, q) && !Matches(q, p)
    ensures IsRun(u, states, events) && |states| == 4 && states[0].rover == rover
    ensures states[3].open && states[3].server == [p, q] && p in states[3].keys
  {
    var b := Bus(rover, [], map[], [], [], false, {});
    FirstSubscribe(b, p);
    var b1 := Subscribe(b, p, 0);
    SubscribeBeside(b1, q, p);
    var b2 := Subscribe(b1, q, 0);
    StepOpen(b, p);
    StepOpen(b1, q);
    hide Subscribe, Matches, HandleAll;
    events := [SubscribeCall(p, 0), SubscribeCall(q, 0), Open];
    states := [b, b1, b2, Opened(b2)];
  }

  lemma UnsubscribeOpen(b: Bus, p: Subject)
    requires !b.open
    ensures !Unsubscribe(b, p, 0).open
  {
    hide Send, Matches, Without;
    var c := b.(keys := Without(b.keys, p), handlers := b.handlers - {p});
    SendFrame(c.(server := Without(b.server, p)), UnsubEnv(p));
    AdoptServer(Send(c.(server := Without(b.server, p)), UnsubEnv(p)), c.keys);
  }

  lemma DropBroadest(b: Bus, p: Subject, q: Subject, r: Subject)
    requires b.keys == [p, q, r] && b.server == [r] && r in b.handlers && b.handlers[r] == {0}
    requires p != q && p != r && q != r && !Matches(p, q)
    ensures var c := Unsubscribe(b, r, 0); c.server == [p, q] && c.keys == [p, q]
  {
    hide Matches, Send, RemoveServerSub;
    assert Without([p, q, r], r) == [p, q] by {
      assert [p, q, r][..2] == [p, q];
      WithoutAbsent([p, q], r);
    }
    AdoptTwo(b.(keys := [p, q], handlers := b.handlers - {r}), p, q, r);
  }

  lemma ChainServer(b: Bus, p: Subject, q: Subject, r: Subject)
    requires b.server == [] && b.keys == [] && b.handlers == map[] && !b.open
    requires p != q && q != r && p != r && Matches(q, p) && Matches(r, q) && !Matches(p, q) && !Matches(q, r)
    ensures var b3 := Subscribe(Subscribe(Subscribe(b, p, 0), q, 0), r, 0);
      b3.server == [r] && b3.keys == [p, q, r] && r in b3.handlers && b3.handlers[r] == {0} && !b3.open
  {
    hide Subscribe, Matches;
    FirstSubscribe(b, p);
    var b1 := Subscribe(b, p, 0);
    StepOpen(b, p);
    SubscribeOver(b1, q, p);
    var b2 := Subscribe(b1, q, 0);
    StepOpen(b1, q);
    SubscribeOver(b2, r, q);
    StepOpen(b2, r);
  }

  /** Narrow, broad, broadest, and the broadest dropped: the narrow and the broad one are both registered. */
  lemma ChainRun(u: iset<Subject>, rover: string, p: Subject, q: Subject, r: Subject)
    returns (states: seq<Bus>, events: seq<Event>)
    requires p in u && q in u && r in u && p != q && q != r && p != r
    requires Matches(q, p) && Matches(r, q) && !Matches(p, q) && !Matches(q, r)
    ensures IsRun(u, states, events) && |states| == 6 && states[0].rover == rover
    ensures states[5].open && states[5].server == [p, q] && p in states[5].keys
  {
    var b := Bus(rover, [], map[], [], [], false, {});
    hide Subscribe, Unsubscribe, Matches, HandleAll;
    ChainServer(b, p, q, r);
    var b1 := Subscribe(b, p, 0);
    var b2 := Subscribe(b1, q, 0);
    var b3 := Subscribe(b2, r, 0);
    var b4 := Unsubscribe(b3, r, 0);
    DropBroadest(b3, p, q, r);
    UnsubscribeOpen(b3, r);
    events := [SubscribeCall(p, 0), SubscribeCall(q, 0), SubscribeCall(r, 0), UnsubscribeCall(r, 0), Open];
    states := [b, b1, b2, b3, b4, Opened(b4)];
  }

  lemma Twice(u: iset<Subject>, states: seq<Bus>, events: seq<Event>, i: nat, p: Subject, q: Subject, s: Subject)
    requires IsRun(u, states, events) && i < |states| && states[i].open && states[i].server == [p, q]
        && p in states[i].keys
    requires p != q && Allowed(states[0].rover, p) && Allowed(states[0].rover, q)
    requires Concrete(s) && Denotes(p, s) && Denotes(q, s)
    ensures !AlwaysOnce(u, states[0].rover)
  {
    hide Allowed, Denotes;
    GatewayInSync(u, states, events, i, p);
    GatewayInSync(u, states, events, i, q);
    hide IsRun;
    assert !AtMostOnce(states[i], s);
  }

  lemma CrossingTwice(u: iset<Subject>, rover: string, p: Subject, q: Subject)
    requires p in u && q in u && Valid(p) && Valid(q) && Allowed(rover, p) && Allowed(rover, q)
    requires Meets(p, q) && !Matches(p, q) && !Matches(q, p)
    ensures !AlwaysOnce(u, rover)
  {
    hide IsRun, Allowed, AlwaysOnce;
    var s := Common(p, q);
    var states, events := CrossingRun(u, rover, p, q);
    Twice(u, states, events, 3, p, q, s);
  }

  lemma ChainTwice(u: iset<Subject>, rover: string, p: Subject, q: Subject, r: Subject)
    requires Protects(u, Served(rover)) && p in u && q in u && r in u && Allowed(rover, p) && Allowed(rover, q)
    requires p != q && q != r && Matches(r, q) && Matches(q, p)
    ensures !AlwaysOnce(u, rover)
  {
    hide IsRun, Allowed, AlwaysOnce, Instance;
    var w := Served(rover);
    if Matches(p, q) { ProtectedAntisymmetric(u, w, p, q); }
    if Matches(q, r) { ProtectedAntisymmetric(u, w, q, r); }
    assert "x"[0] != ANY[0] && "x"[0] != REST[0];
    var s := Instance(p, "x");
    InstanceDenoted(p, "x");
    ContainsIff(q, p);
    var states, events := ChainRun(u, rover, p, q, r);
    Twice(u, states, events, 5, p, q, s);
  }

  /**
   Every message is delivered exactly once, in all runs, exactly if no pattern of the
   rover is shadowed or overreached, those that meet are nested, and none of them lies
   between two others.
   */
  lemma AlwaysOnceIff(u: iset<Subject>, rover: string)
    requires forall p | p in u :: Valid(p)
    ensures AlwaysOnce(u, rover)
      <==> NoShadow(u, rover) && NoOverreach(u, rover) && NoCrossing(u, rover) && NoChain(u, rover)
  {
    hide IsRun, Allowed, Matches, DeliveredBy, Overreach, AtMostOnce, Meets, Denotes, Valid;
    AlwaysDeliversIff(u, rover);
    if !(NoShadow(u, rover) && NoOverreach(u, rover)) {
      OnceDelivers(u, rover);
    } else if !NoCrossing(u, rover) {
      var p, q :| p in u && q in u && Allowed(rover, p) && Allowed(rover, q) && Meets(p, q) && !Matches(p, q)
          && !Matches(q, p);
      CrossingTwice(u, rover, p, q);
    } else if !NoChain(u, rover) {
      var p, q, r :| p in u && q in u && r in u && Allowed(rover, p) && Allowed(rover, q) && p != q && q != r
                     && Matches(r, q) && Matches(q, p);
      ChainTwice(u, rover, p, q, r);
    } else {
      forall states: seq<Bus>, events: seq<Event>, i, k, s
        | IsRun(u, states, events) && 0 <= i < |states| && states[0].rover == rover && states[i].open
          && k in states[i].keys && Allowed(rover, k) && Concrete(s) && Denotes(k, s)
        ensures DeliveredBy(states[i], s) && AtMostOnce(states[i], s)
      {
        NoMissedMessage(u, states, events, i, k, s);
        NoSecondFrame(u, states, events, i, s);
      }
    }
  }

  lemma OnceDelivers(u: iset<Subject>, rover: string)
    ensures AlwaysOnce(u, rover) ==> AlwaysDelivers(u, rover)
  {
    hide IsRun, Allowed, DeliveredBy, AtMostOnce, Denotes;
  }

  /** An antichain is not enough: `a.*.c` and `a.b.*` are one, and both deliver `a.b.c`. */
  lemma CrossingExample()
    ensures var p, q, s := ["a", ANY, "c"], ["a", "b", ANY], ["a", "b", "c"];
      Antichain([p, q]) && Concrete(s) && Denotes(p, s) && Denotes(q, s)
  {
    var p, q, s := ["a", ANY, "c"], ["a", "b", ANY], ["a", "b", "c"];
    assert "a"[0] != REST[0] && "a"[0] != ANY[0] && "b"[0] != ANY[0] && "b"[0] != REST[0];
    assert "c"[0] != ANY[0] && "c"[0] != REST[0] && ANY[0] != REST[0];
    assert p[1..] == [ANY, "c"] && q[1..] == ["b", ANY] && s[1..] == ["b", "c"];
    assert [ANY, "c"][1..] == ["c"] && ["b", ANY][1..] == [ANY] && ["b", "c"][1..] == ["c"];
    assert ["c"][1..] == [] && [ANY][1..] == [];
    assert Denotes(["c"], ["c"]) && Denotes([ANY], ["c"]) && !Denotes(["c"], [ANY]);
    assert !Denotes(["b", ANY], [ANY, "c"]) && !Denotes([ANY, "c"], ["b", ANY]);
  }
}
