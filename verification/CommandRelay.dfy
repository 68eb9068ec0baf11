/**
 The proxy's command relay: proxy/internal/cmdrelay/relay.go and classindex.go. A frame
 republished into a rover's account comes back into the sessions account through the
 firehose import, where the relay sees it again.
 */
module CommandRelay {
  import opened Prelude
  import opened Subjects

  datatype ModuleInfo = ModuleInfo(id: string, classes: seq<string>, legacyClass: string)

  /** What an infra.modules payload decodes to, if it does. */
  type Snapshot = Option<seq<ModuleInfo>>

  datatype Frame = Frame(subject: Subject, data: string, snapshot: Snapshot, tagged: bool)

  type ByModule = map<string, set<string>>
  type Index = map<string, ByModule>

  // ----- Subscriptions

  const CMD := ["waypoint", "*", "cmd", ">"]
  const SET_MODE := ["waypoint", "*", "rpc", "set_mode"]
  const ESTOP := ["waypoint", "*", "rpc", "estop"]
  const RECOVER := ["waypoint", "*", "rpc", "recover"]
  const COMMAND := ["waypoint", "*", "module", "*", "command"]
  const INFRA := ["waypoint", "*", "infra", "modules"]
  const COMPONENT := ["waypoint", "*", "module", "*", "*", "cmd"]

  const RELAYED := [CMD, SET_MODE, ESTOP, RECOVER, COMMAND]

  function RoverOf(s: Subject): string { if |s| < 3 || s[0] != "waypoint" then "" else s[1] }

  // ----- Class index

  function Classes(m: ModuleInfo): set<string> {
    (set c | c in m.classes && c != "") + if m.legacyClass == "" then {} else {m.legacyClass}
  }

  /** Modules without a class leave no entry, and do not clear an earlier one of the same id. */
  function ByModuleOf(modules: seq<ModuleInfo>): ByModule {
    if modules == [] then map[]
    else
      var m := modules[|modules| - 1];
      var before := ByModuleOf(modules[..|modules| - 1]);
      if Classes(m) == {} then before else before[m.id := Classes(m)]
  }

  function Learn(ix: Index, rover: string, snap: Snapshot): Index {
    match snap
    case None => ix
    case Some(modules) => ix[rover := ByModuleOf(modules)]
  }

  predicate IsComponentCmd(s: Subject) {
    && |s| == 6 && s[0] == "waypoint" && s[2] == "module" && s[5] == "cmd"
    && s[1] != "" && s[3] != "" && s[4] != ""
  }

  predicate Allow(ix: Index, s: Subject) {
    IsComponentCmd(s) && s[1] in ix && s[3] in ix[s[1]] && s[4] in ix[s[1]][s[3]]
  }

  method CollectClasses(m: ModuleInfo) returns (classes: set<string>)
    ensures classes == Classes(m)
  {
    classes := {};
    for j := 0 to |m.classes|
      invariant classes == set c | c in m.classes[..j] && c != ""
    {
      if m.classes[j] != "" { classes := classes + {m.classes[j]}; }
      assert m.classes[..j + 1] == m.classes[..j] + [m.classes[j]];
    }
    assert m.classes[..|m.classes|] == m.classes;
    if m.legacyClass != "" { classes := classes + {m.legacyClass}; }
  }

  method LearnSnapshot(ix: Index, rover: string, snap: Snapshot) returns (r: Index)
    ensures r == Learn(ix, rover, snap)
  {
    hide Classes;
    if snap.None? { return ix; }
    var byModule: ByModule := map[];
    for i := 0 to |snap.value|
      invariant byModule == ByModuleOf(snap.value[..i])
    {
      var m := snap.value[i];
      assert snap.value[..i + 1][..i] == snap.value[..i];
      var classes := CollectClasses(m);
      if |classes| > 0 { byModule := byModule[m.id := classes]; }
    }
    assert snap.value[..|snap.value|] == snap.value;
    r := ix[rover := byModule];
  }

  // ----- The relay

  /** `inbox` is in flight in the sessions account; `published` went out on rover connections. */
  datatype Relay = Relay(index: Index, inbox: seq<Frame>, published: seq<Frame>)

  /** The relay handler; `reachable` are the rovers with a connection. */
  function Handle(r: Relay, f: Frame, reachable: set<string>): Relay {
    if f.tagged || RoverOf(f.subject) == "" || RoverOf(f.subject) !in reachable then r
    else
      var out := f.(tagged := true);
      r.(inbox := r.inbox + [out], published := r.published + [out])
  }

  /** Every subscription that matches gets the frame, in the order of subscribing. */
  function Dispatch(r: Relay, f: Frame, reachable: set<string>): Relay {
    var r := HandleEach(r, f, reachable, RELAYED);
    var r := if Denotes(INFRA, f.subject) && RoverOf(f.subject) != "" then
               r.(index := Learn(r.index, RoverOf(f.subject), f.snapshot)) else r;
    if Denotes(COMPONENT, f.subject) && Allow(r.index, f.subject) then Handle(r, f, reachable) else r
  }

  function HandleEach(r: Relay, f: Frame, reachable: set<string>, patterns: seq<Subject>): Relay
    decreases |patterns|
  {
    if patterns == [] then r
    else HandleEach(if Denotes(patterns[0], f.subject) then Handle(r, f, reachable) else r, f, reachable, patterns[1..])
  }

  /** Frames in flight are delivered in any order. */
  datatype Event = Arrive(f: Frame) | Deliver(i: nat, reachable: set<string>)

  predicate Enabled(r: Relay, e: Event) { e.Deliver? ==> e.i < |r.inbox| }

  function Step(r: Relay, e: Event): Relay
    requires Enabled(r, e)
  {
    match e
    case Arrive(f) => r.(inbox := r.inbox + [f])
    case Deliver(i, reachable) => Dispatch(r.(inbox := r.inbox[..i] + r.inbox[i + 1..]), r.inbox[i], reachable)
  }

  // ----- The subscriptions are disjoint

  /** Which subscription, if any, takes a subject. */
  datatype Route = ToCmd | ToRpc | ToCommand | ToInfra | ToComponent | Nowhere

  function RouteOf(s: Subject): Route {
    if |s| < 4 || s[0] != "waypoint" then Nowhere
    else if s[2] == "cmd" then ToCmd
    else if s[2] == "rpc" && |s| == 4 && s[3] in {"set_mode", "estop", "recover"} then ToRpc
    else if s[2] == "module" && |s| == 5 && s[4] == "command" then ToCommand
    else if s[2] == "infra" && |s| == 4 && s[3] == "modules" then ToInfra
    else if s[2] == "module" && |s| == 6 && s[5] == "cmd" then ToComponent
    else Nowhere
  }

  lemma Tail(s: Subject, i: nat)
    requires i < |s|
    ensures s[i..][1..] == s[i + 1..] && s[i..][0] == s[i]
  {
  }

  lemma {:induction false} DenotesFrom(p: Subject, s: Subject, i: nat)
    requires i <= |p| && forall t | t in p :: t != REST
    ensures i <= |s| ==> (Denotes(p[i..], s[i..])
        <==> |s| == |p| && forall j | i <= j < |p| :: p[j] == ANY || p[j] == s[j])
    decreases |p| - i
  {
    if i < |p| && i < |s| {
      Tail(p, i);
      Tail(s, i);
      assert p[i] in p;
      DenotesFrom(p, s, i + 1);
    }
  }

  /** A pattern without `>` matches token by token. */
  lemma DenotesExact(p: Subject, s: Subject)
    requires forall t | t in p :: t != REST
    ensures Denotes(p, s) <==> |s| == |p| && forall j | 0 <= j < |p| :: p[j] == ANY || p[j] == s[j]
  {
    DenotesFrom(p, s, 0);
    assert p[0..] == p && s[0..] == s;
  }

  lemma TokensDiffer()
    ensures forall t | t in ["waypoint", "cmd", "rpc", "module", "infra", "modules",
                             "command", "set_mode", "estop", "recover"]
            :: t != ANY && t != REST
    ensures ANY != REST
  {
    assert ANY[0] != REST[0];
  }

  lemma CmdDenotes(s: Subject)
    ensures Denotes(CMD, s) <==> |s| >= 4 && s[0] == "waypoint" && s[2] == "cmd"
  {
    TokensDiffer();
    assert CMD[1..] == ["*", "cmd", ">"] && CMD[1..][1..] == ["cmd", ">"] && CMD[1..][1..][1..] == [">"];
    if |s| >= 3 {
      Tail(s, 1);
      Tail(s, 2);
      assert s[1..][1..] == s[2..] && s[2..][1..] == s[3..];
    }
  }

  lemma RpcDenotes(leaf: string, s: Subject)
    requires leaf != ANY && leaf != REST
    ensures Denotes(["waypoint", "*", "rpc", leaf], s)
        <==> |s| == 4 && s[0] == "waypoint" && s[2] == "rpc" && s[3] == leaf
  {
    hide Denotes;
    TokensDiffer();
    DenotesExact(["waypoint", "*", "rpc", leaf], s);
  }

  lemma CommandDenotes(s: Subject)
    ensures Denotes(COMMAND, s) <==> |s| == 5 && s[0] == "waypoint" && s[2] == "module" && s[4] == "command"
  {
    hide Denotes;
    TokensDiffer();
    DenotesExact(COMMAND, s);
  }

  lemma InfraDenotes(s: Subject)
    ensures Denotes(INFRA, s) <==> |s| == 4 && s[0] == "waypoint" && s[2] == "infra" && s[3] == "modules"
  {
    hide Denotes;
    TokensDiffer();
    DenotesExact(INFRA, s);
  }

  lemma ComponentDenotes(s: Subject)
    ensures Denotes(COMPONENT, s) <==> |s| == 6 && s[0] == "waypoint" && s[2] == "module" && s[5] == "cmd"
  {
    hide Denotes;
    TokensDiffer();
    DenotesExact(COMPONENT, s);
  }

  /** Every subject goes to at most one subscription. */
  lemma Routes(s: Subject)
    ensures Denotes(CMD, s) <==> RouteOf(s) == ToCmd
    ensures Denotes(SET_MODE, s) || Denotes(ESTOP, s) || Denotes(RECOVER, s) <==> RouteOf(s) == ToRpc
    ensures !(Denotes(SET_MODE, s) && Denotes(ESTOP, s)) && !(Denotes(SET_MODE, s) && Denotes(RECOVER, s))
        && !(Denotes(ESTOP, s) && Denotes(RECOVER, s))
    ensures Denotes(COMMAND, s) <==> RouteOf(s) == ToCommand
    ensures Denotes(INFRA, s) <==> RouteOf(s) == ToInfra
    ensures Denotes(COMPONENT, s) <==> RouteOf(s) == ToComponent
  {
    hide Denotes;
    TokensDiffer();
    CmdDenotes(s);
    RpcDenotes("set_mode", s);
    RpcDenotes("estop", s);
    RpcDenotes("recover", s);
    CommandDenotes(s);
    InfraDenotes(s);
    ComponentDenotes(s);
    LiteralsDiffer();
  }

  lemma LiteralsDiffer()
    ensures "cmd" != "rpc" && "cmd" != "module" && "cmd" != "infra" && "rpc" != "module" && "rpc" != "infra"
        && "module" != "infra"
    ensures "set_mode" != "estop" && "set_mode" != "recover" && "estop" != "recover"
  {
    assert "cmd"[0] == 'c' && "rpc"[0] == 'r' && "module"[0] == 'm' && "infra"[0] == 'i';
    assert "set_mode"[0] == 's' && "estop"[0] == 'e' && "recover"[0] == 'r';
  }

  // ----- Each frame is republished at most once

  /** Whether the relay takes a frame on: a relayed subject, or a component leaf the index allows. */
  predicate Relayable(ix: Index, s: Subject) {
    RouteOf(s) == ToCmd || RouteOf(s) == ToRpc || RouteOf(s) == ToCommand || (RouteOf(s) == ToComponent && Allow(ix, s))
  }

  /** Dispatch is one call of the handler or none, or one lesson for the index. */
  lemma DispatchOnce(r: Relay, f: Frame, reachable: set<string>)
    ensures Dispatch(r, f, reachable) ==
      if Relayable(r.index, f.subject) then Handle(r, f, reachable)
      else if RouteOf(f.subject) == ToInfra && RoverOf(f.subject) != "" then
        r.(index := Learn(r.index, RoverOf(f.subject), f.snapshot))
      else r
  {
    Routes(f.subject);
    hide Denotes, RouteOf, Allow;
    var g := f.subject;
    var r1 := if Denotes(CMD, g) then Handle(r, f, reachable) else r;
    var r2 := if Denotes(SET_MODE, g) then Handle(r1, f, reachable) else r1;
    var r3 := if Denotes(ESTOP, g) then Handle(r2, f, reachable) else r2;
    var r4 := if Denotes(RECOVER, g) then Handle(r3, f, reachable) else r3;
    var r5 := if Denotes(COMMAND, g) then Handle(r4, f, reachable) else r4;
    calc {
      HandleEach(r, f, reachable, RELAYED);
      { assert RELAYED[1..] == [SET_MODE, ESTOP, RECOVER, COMMAND]; }
      HandleEach(r1, f, reachable, [SET_MODE, ESTOP, RECOVER, COMMAND]);
      { assert [SET_MODE, ESTOP, RECOVER, COMMAND][1..] == [ESTOP, RECOVER, COMMAND]; }
      HandleEach(r2, f, reachable, [ESTOP, RECOVER, COMMAND]);
      { assert [ESTOP, RECOVER, COMMAND][1..] == [RECOVER, COMMAND]; }
      HandleEach(r3, f, reachable, [RECOVER, COMMAND]);
      { assert [RECOVER, COMMAND][1..] == [COMMAND]; }
      HandleEach(r4, f, reachable, [COMMAND]);
      { assert [COMMAND][1..] == []; }
      HandleEach(r5, f, reachable, []);
      r5;
    }
  }

  /** Two for a frame that may still be republished, one for one that only has to be dropped. */
  function Weight(s: seq<Frame>): nat {
    if s == [] then 0 else (if s[0].tagged then 1 else 2) + Weight(s[1..])
  }

  function Untagged(s: seq<Frame>): nat {
    if s == [] then 0 else (if s[0].tagged then 0 else 1) + Untagged(s[1..])
  }

  lemma {:induction false} WeightAppend(a: seq<Frame>, b: seq<Frame>)
    ensures Weight(a + b) == Weight(a) + Weight(b) && Untagged(a + b) == Untagged(a) + Untagged(b)
    decreases |a|
  {
    if a == [] {
      assert a + b == b;
    } else {
      assert (a + b)[1..] == a[1..] + b;
      WeightAppend(a[1..], b);
    }
  }

  lemma WeightRemove(s: seq<Frame>, i: nat)
    requires i < |s|
    ensures Weight(s[..i] + s[i + 1..]) + (if s[i].tagged then 1 else 2) == Weight(s)
    ensures Untagged(s[..i] + s[i + 1..]) + (if s[i].tagged then 0 else 1) == Untagged(s)
  {
    WeightAppend(s[..i], s[i + 1..]);
    WeightAppend(s[..i], s[i..]);
    assert s == s[..i] + s[i..] && s[i..][1..] == s[i + 1..];
  }

  /** A delivery publishes at most one frame, and then a tagged one replaces an untagged one. */
  lemma DeliverStep(r: Relay, e: Event)
    requires Enabled(r, e) && e.Deliver?
    ensures Weight(Step(r, e).inbox) < Weight(r.inbox)
    ensures |Step(r, e).published| + Untagged(Step(r, e).inbox) <= |r.published| + Untagged(r.inbox)
  {
    var f, r' := r.inbox[e.i], r.(inbox := r.inbox[..e.i] + r.inbox[e.i + 1..]);
    DispatchOnce(r', f, e.reachable);
    WeightRemove(r.inbox, e.i);
    WeightAppend(r'.inbox, [f.(tagged := true)]);
    assert [f.(tagged := true)][1..] == [];
    hide Dispatch, Relayable, RouteOf, Learn;
  }

  ghost predicate IsRun(states: seq<Relay>, events: seq<Event>) {
    && |states| == |events| + 1 && states[0] == Relay(map[], [], [])
    && forall i | 0 <= i < |events| :: Enabled(states[i], events[i]) && states[i + 1] == Step(states[i], events[i])
  }

  /** Untagged frames that came in from outside. */
  function Arrivals(events: seq<Event>): nat {
    if events == [] then 0
    else
      var e := events[|events| - 1];
      Arrivals(events[..|events| - 1]) + if e.Arrive? && !e.f.tagged then 1 else 0
  }

  function ArrivalsOf(events: seq<Event>, f: Frame): nat {
    if events == [] then 0
    else ArrivalsOf(events[..|events| - 1], f) + if events[|events| - 1] == Arrive(f) then 1 else 0
  }

  /** A delivered frame goes out: it is untagged, the relay takes its subject on, and its rover is connected. */
  predicate GoesOut(r: Relay, f: Frame, reachable: set<string>) {
    !f.tagged && Relayable(r.index, f.subject) && RoverOf(f.subject) != "" && RoverOf(f.subject) in reachable
  }

  /** Deliveries of `f` that led to no publication. */
  ghost function Dropped(states: seq<Relay>, events: seq<Event>, i: nat, f: Frame): nat
    requires IsRun(states, events) && i < |states|
    decreases i
  {
    if i == 0 then 0
    else
      var r, e := states[i - 1], events[i - 1];
      Dropped(states, events, i - 1, f)
      + if e.Deliver? && r.inbox[e.i] == f && !GoesOut(r, f, e.reachable) then 1 else 0
  }

  lemma InboxSplit(s: seq<Frame>, i: nat, f: Frame)
    requires i < |s|
    ensures multiset(s)[f] == multiset(s[..i] + s[i + 1..])[f] + if s[i] == f then 1 else 0
  {
    assert s == s[..i] + [s[i]] + s[i + 1..];
  }

  /** A delivery moves its frame from the inbox to the publications, once, or drops it. */
  lemma DeliverMoves(r: Relay, e: Event, f: Frame)
    requires Enabled(r, e) && e.Deliver? && !f.tagged
    ensures var r', d, out := Step(r, e), r.inbox[e.i], f.(tagged := true);
      && multiset(r'.inbox)[f] == multiset(r.inbox)[f] - (if d == f then 1 else 0)
      && multiset(r'.published)[out]
         == multiset(r.published)[out] + if GoesOut(r, d, e.reachable) && d == f then 1 else 0
  {
    var d, rest := r.inbox[e.i], r.inbox[..e.i] + r.inbox[e.i + 1..];
    DispatchOnce(r.(inbox := rest), d, e.reachable);
    InboxSplit(r.inbox, e.i, f);
    hide Dispatch, Relayable, RouteOf, Learn;
    assert !d.tagged && d.(tagged := true) == f.(tagged := true) ==> d == f;
  }

  /**
   Over every run each untagged frame is accounted for: it is still in the inbox, or
   was dropped by the guards of its delivery, or was published, once. So no frame is
   published more often than it came in, nor are all frames together.
   */
  lemma {:induction false} RepublishedAtMostOnce(states: seq<Relay>, events: seq<Event>, i: nat, f: Frame)
    requires IsRun(states, events) && i < |states| && !f.tagged
    ensures multiset(states[i].published)[f.(tagged := true)] + multiset(states[i].inbox)[f]
            + Dropped(states, events, i, f)
         == ArrivalsOf(events[..i], f)
    ensures |states[i].published| + Untagged(states[i].inbox) <= Arrivals(events[..i])
    decreases i
  {
    if i > 0 {
      RepublishedAtMostOnce(states, events, i - 1, f);
      assert events[..i][..i - 1] == events[..i - 1];
      hide Dispatch, GoesOut;
      match events[i - 1]
      case Arrive(g) =>
        WeightAppend(states[i - 1].inbox, [g]);
        assert [g][1..] == [];
      case Deliver(_, _) =>
        DeliverStep(states[i - 1], events[i - 1]);
        DeliverMoves(states[i - 1], events[i - 1], f);
    }
  }

  /** Quiescence: once nothing more comes in, the deliveries that can still happen are bounded. */
  lemma {:induction false} Quiesces(states: seq<Relay>, events: seq<Event>, i: nat, j: nat)
    requires IsRun(states, events) && i <= j < |states| && forall k | i <= k < j :: events[k].Deliver?
    ensures j - i + Weight(states[j].inbox) <= Weight(states[i].inbox)
    decreases j - i
  {
    if i < j {
      Quiesces(states, events, i, j - 1);
      DeliverStep(states[j - 1], events[j - 1]);
    }
  }

  // ----- Component leaves

  /** The last decodable snapshot of a rover among the frames delivered so far. */
  ghost function Latest(states: seq<Relay>, events: seq<Event>, i: nat, rover: string): Snapshot
    requires IsRun(states, events) && i < |states|
    decreases i
  {
    if i == 0 then None
    else
      var e := events[i - 1];
      if e.Deliver? && Reports(states[i - 1].inbox[e.i], rover) then states[i - 1].inbox[e.i].snapshot
      else Latest(states, events, i - 1, rover)
  }

  predicate Reports(f: Frame, rover: string) {
    RouteOf(f.subject) == ToInfra && RoverOf(f.subject) == rover && f.snapshot.Some?
  }

  /** `class` is declared for `id`, and no later entry of that id with classes replaces it. */
  predicate Declares(modules: seq<ModuleInfo>, id: string, cls: string) {
    exists i :: 0 <= i < |modules| && DeclaredAt(modules, i, id, cls)
  }

  predicate DeclaredAt(modules: seq<ModuleInfo>, i: nat, id: string, cls: string)
    requires i < |modules|
  {
    modules[i].id == id && cls in Classes(modules[i])
    && forall j | i < j < |modules| :: modules[j].id == id ==> Classes(modules[j]) == {}
  }

  lemma DeclaresStep(modules: seq<ModuleInfo>, id: string, cls: string)
    requires modules != []
    ensures var n := |modules| - 1;
      Declares(modules, id, cls) <==>
        if modules[n].id == id && Classes(modules[n]) != {} then cls in Classes(modules[n])
        else Declares(modules[..n], id, cls)
  {
    hide Classes;
    var n := |modules| - 1;
    var init, m := modules[..n], modules[n];
    if Declares(modules, id, cls) {
      var i :| 0 <= i < |modules| && DeclaredAt(modules, i, id, cls);
      if i < n && !(m.id == id && Classes(m) != {}) { assert DeclaredAt(init, i, id, cls); }
    }
    if m.id == id && cls in Classes(m) { assert DeclaredAt(modules, n, id, cls); }
    if Declares(init, id, cls) && !(m.id == id && Classes(m) != {}) {
      var i :| 0 <= i < n && DeclaredAt(init, i, id, cls);
      assert DeclaredAt(modules, i, id, cls);
    }
  }

  lemma {:induction false} ByModuleDeclares(modules: seq<ModuleInfo>, id: string, cls: string)
    ensures id in ByModuleOf(modules) && cls in ByModuleOf(modules)[id] <==> Declares(modules, id, cls)
    decreases |modules|
  {
    if modules != [] {
      hide Classes, Declares;
      ByModuleDeclares(modules[..|modules| - 1], id, cls);
      DeclaresStep(modules, id, cls);
    }
  }

  lemma IndexStep(r: Relay, e: Event, rover: string)
    requires Enabled(r, e) && rover != ""
    ensures var ix := Step(r, e).index;
      if e.Deliver? && Reports(r.inbox[e.i], rover)
      then rover in ix && ix[rover] == ByModuleOf(r.inbox[e.i].snapshot.value)
      else (rover in ix <==> rover in r.index) && (rover in ix ==> ix[rover] == r.index[rover])
  {
    hide Dispatch, RouteOf, Relayable, ByModuleOf;
    if e.Deliver? {
      DispatchOnce(r.(inbox := r.inbox[..e.i] + r.inbox[e.i + 1..]), r.inbox[e.i], e.reachable);
      RouteExclusive(r.index, r.inbox[e.i].subject);
    }
  }

  lemma {:induction false} IndexIsLatest(states: seq<Relay>, events: seq<Event>, i: nat, rover: string)
    requires IsRun(states, events) && i < |states| && rover != ""
    ensures var l := Latest(states, events, i, rover);
      if l.None? then rover !in states[i].index
      else rover in states[i].index && states[i].index[rover] == ByModuleOf(l.value)
    decreases i
  {
    if i > 0 {
      hide Step, ByModuleOf, RouteOf;
      IndexIsLatest(states, events, i - 1, rover);
      IndexStep(states[i - 1], events[i - 1], rover);
    }
  }

  lemma RouteExclusive(ix: Index, s: Subject)
    ensures RouteOf(s) == ToInfra ==> !Relayable(ix, s)
  {
  }

  /** A component leaf passes exactly when the rover's latest decodable snapshot declares that class for that module. */
  lemma AllowIff(states: seq<Relay>, events: seq<Event>, i: nat, s: Subject)
    requires IsRun(states, events) && i < |states| && IsComponentCmd(s)
    ensures Allow(states[i].index, s) <==>
      Latest(states, events, i, s[1]).Some? && Declares(Latest(states, events, i, s[1]).value, s[3], s[4])
  {
    IndexIsLatest(states, events, i, s[1]);
    var l := Latest(states, events, i, s[1]);
    if l.Some? { ByModuleDeclares(l.value, s[3], s[4]); }
  }

  // ----- What goes out, in terms of the frames

  /** The rover a subject names: its second token, if the first is `waypoint` and a third follows. */
  lemma RoverNamed(rover: string, leaf: Subject, s: Subject)
    ensures leaf != [] ==> RoverOf(["waypoint", rover] + leaf) == rover
    ensures RoverOf(s) != "" ==> exists leaf :: leaf != [] && s == ["waypoint", RoverOf(s)] + leaf
  {
    if RoverOf(s) != "" { assert s == ["waypoint", RoverOf(s)] + s[2..]; }
  }

  /** A class is declared by a module in its list or in the older single field; the empty class never is. */
  lemma ClassesIff(m: ModuleInfo, cls: string)
    ensures cls in Classes(m) <==> cls != "" && (cls in m.classes || cls == m.legacyClass)
  {
  }

  /** The report of a rover is a decodable frame on `waypoint.<rover>.infra.modules`. */
  lemma ReportsIff(f: Frame, rover: string)
    ensures Reports(f, rover) <==> f.subject == ["waypoint", rover, "infra", "modules"] && f.snapshot.Some?
  {
    LiteralsDiffer();
    var s := f.subject;
    if |s| == 4 { assert s == [s[0], s[1], s[2], s[3]]; }
  }

  /** The leaves a browser may reach under a rover, given the rover's latest module report. */
  predicate Reachable(leaf: Subject, report: Snapshot) {
    || (|leaf| >= 2 && leaf[0] == "cmd")
    || leaf in [["rpc", "set_mode"], ["rpc", "estop"], ["rpc", "recover"]]
    || (|leaf| == 3 && leaf[0] == "module" && leaf[2] == "command")
    || (|leaf| == 4 && leaf[0] == "module" && leaf[1] != "" && leaf[2] != "" && leaf[3] == "cmd"
        && report.Some? && Declares(report.value, leaf[1], leaf[2]))
  }

  /**
   Over every run a delivery publishes its frame, tagged and otherwise as it was, exactly when the frame is not
   tagged already, names a connected rover, and its leaf is one of the fixed ones or a component class that the
   rover's latest report declares; otherwise it publishes nothing. What it publishes comes back as a frame in
   flight, through the firehose import.
   */
  lemma PublishedIff(states: seq<Relay>, events: seq<Event>, i: nat)
    requires IsRun(states, events) && i < |events| && events[i].Deliver?
    ensures var f, inbox := states[i].inbox[events[i].i], states[i].inbox;
      var s := f.subject;
      var out := if && !f.tagged && |s| >= 4 && s[0] == "waypoint" && s[1] != "" && s[1] in events[i].reachable
                    && Reachable(s[2..], Latest(states, events, i, s[1]))
                 then [Frame(s, f.data, f.snapshot, true)] else [];
      && states[i + 1].published == states[i].published + out
      && states[i + 1].inbox == inbox[..events[i].i] + inbox[events[i].i + 1..] + out
  {
    var r, e := states[i], events[i];
    var f := r.inbox[e.i];
    var s := f.subject;
    DispatchOnce(r.(inbox := r.inbox[..e.i] + r.inbox[e.i + 1..]), f, e.reachable);
    if |s| >= 4 && s[0] == "waypoint" && s[1] != "" {
      RelayableIff(states, events, i, s);
    }
    if Relayable(r.index, s) { RelayableRouted(r.index, s); }
    hide Dispatch, Relayable, Reachable, Learn, Latest, RouteOf;
  }

  lemma RelayableRouted(ix: Index, s: Subject)
    requires Relayable(ix, s)
    ensures |s| >= 4 && s[0] == "waypoint"
  {
  }

  lemma RelayableIff(states: seq<Relay>, events: seq<Event>, i: nat, s: Subject)
    requires IsRun(states, events) && i < |states| && |s| >= 4 && s[0] == "waypoint" && s[1] != ""
    ensures Relayable(states[i].index, s) <==> Reachable(s[2..], Latest(states, events, i, s[1]))
  {
    LiteralsDiffer();
    if IsComponentCmd(s) { AllowIff(states, events, i, s); }
    hide Latest, Declares, IsRun;
    if |s| == 4 { assert s[2..] == [s[2], s[3]]; }
    if |s| != 4 { assert |s[2..]| != 2; }
    assert "cmd"[0] != "rpc"[0];
  }
}
