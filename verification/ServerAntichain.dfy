/**
 How far the bus keeps its server set reduced to the broadest patterns
 (addServerSub and removeServerSub of dashboard/src/state/nats.ts).
 */
module ServerAntichain {
  import opened Subjects
  import opened SubscriptionBus

  /** No pattern matches another one. */
  ghost predicate Antichain(s: seq<Subject>) { forall a, b | a in s && b in s && a != b :: !Matches(a, b) }

  /** Adding keeps the set reduced, whatever the pattern. */
  lemma AddKeepsAntichain(b: Bus, p: Subject)
    requires Antichain(b.server)
    ensures Antichain(AddServerSub(b, p).server)
  {
    hide Matches, Send;
    var a := Absorb(b, p, b.server);
    AbsorbServer(b, p, b.server);
    SendFrame(a.(server := a.server + [p]), SubEnv(p));
  }

  // ----- Removing

  predicate Orphan(s: seq<Subject>, k: Subject) { !CoveredBy(s, k) }

  /** The patterns that the adoption loop registers: orphans that none registered before them matches. */
  ghost predicate Added(s: seq<Subject>, todo: seq<Subject>, i: nat)
    requires i < |todo|
    decreases i
  {
    Orphan(s, todo[i]) && forall j: nat | j < i && Added(s, todo, j) :: !Matches(todo[j], todo[i])
  }

  ghost predicate Result(s: seq<Subject>, todo: seq<Subject>, q: Subject) {
    q in s || exists i: nat :: i < |todo| && todo[i] == q && Added(s, todo, i)
  }

  /** Shifts `Added` past a first pattern that was not registered, or was. */
  lemma {:induction false} AddedShift(s: seq<Subject>, todo: seq<Subject>, i: nat)
    requires i + 1 < |todo|
    ensures var s' := if CoveredBy(s, todo[0]) then s else s + [todo[0]];
      Added(s, todo, i + 1) <==> Added(s', todo[1..], i)
    decreases i
  {
    var s' := if CoveredBy(s, todo[0]) then s else s + [todo[0]];
    hide Matches;
    assert Orphan(s', todo[i + 1])
        <==> Orphan(s, todo[i + 1]) && (Added(s, todo, 0) ==> !Matches(todo[0], todo[i + 1]));
    forall j: nat | j < i ensures Added(s, todo, j + 1) <==> Added(s', todo[1..], j) { AddedShift(s, todo, j); }
    if Added(s, todo, i + 1) {
      forall j: nat | j < i && Added(s', todo[1..], j) ensures !Matches(todo[1..][j], todo[i + 1]) {
        assert Added(s, todo, j + 1);
      }
    }
    if Added(s', todo[1..], i) {
      forall j: nat | j < i + 1 && Added(s, todo, j) ensures !Matches(todo[j], todo[i + 1]) {
        if j > 0 { assert Added(s', todo[1..], j - 1); }
      }
    }
  }

  lemma {:induction false} AdoptResult(b: Bus, todo: seq<Subject>, q: Subject)
    ensures q in Adopt(b, todo).server <==> Result(b.server, todo, q)
    decreases |todo|
  {
    if todo != [] {
      var t, s := todo[0], b.server;
      hide Matches, Send, CoveredBy, Added;
      if t in s { Covers(s, t, t) by { MatchesSelf(t); } }
      var b' := if t in s || CoveredBy(s, t) then b else Registered(b, t);
      SendFrame(b.(server := s + [t]), SubEnv(t));
      AdoptResult(b', todo[1..], q);
      FirstAdded(s, todo);
      forall i: nat | i + 1 < |todo| ensures Added(s, todo, i + 1) <==> Added(b'.server, todo[1..], i) {
        AddedShift(s, todo, i);
      }
      ShiftResult(s, b'.server, todo, q);
    }
  }

  lemma FirstAdded(s: seq<Subject>, todo: seq<Subject>)
    requires todo != []
    ensures Added(s, todo, 0) <==> !CoveredBy(s, todo[0])
  {
  }

  lemma ShiftResult(s: seq<Subject>, s': seq<Subject>, todo: seq<Subject>, q: Subject)
    requires todo != [] && s' == if Added(s, todo, 0) then s + [todo[0]] else s
    requires forall i: nat | i + 1 < |todo| :: Added(s, todo, i + 1) <==> Added(s', todo[1..], i)
    ensures Result(s, todo, q) <==> Result(s', todo[1..], q)
  {
    hide Added;
    if Result(s, todo, q) && q !in s {
      var i: nat :| i < |todo| && todo[i] == q && Added(s, todo, i);
      if i > 0 {
        assert Added(s, todo, (i - 1) + 1);
        assert todo[1..][i - 1] == q && Added(s', todo[1..], i - 1);
      }
    }
    if Result(s', todo[1..], q) && q !in s' {
      var i: nat :| i < |todo[1..]| && todo[1..][i] == q && Added(s', todo[1..], i);
      assert todo[i + 1] == q && Added(s, todo, i + 1);
    }
  }

  /** Every orphan that another orphan matches comes after one that matches it. */
  ghost predicate BroaderFirst(s: seq<Subject>, todo: seq<Subject>) {
    forall i: nat, j: nat | i < |todo| && j < |todo| && todo[j] != todo[i] && Orphan(s, todo[i]) && Orphan(s, todo[j])
                            && Matches(todo[j], todo[i])
      :: exists h: nat :: h < i && Orphan(s, todo[h]) && Matches(todo[h], todo[i])
  }

  ghost predicate InUniverse(u: iset<Subject>, todo: seq<Subject>) { Safe(u) && forall k | k in todo :: k in u }

  /** Some registered pattern, no later than `h`, matches an orphan. */
  lemma AddedCover(s: seq<Subject>, todo: seq<Subject>, h: nat) returns (g: nat)
    requires h < |todo| && Orphan(s, todo[h])
    ensures g <= h && Added(s, todo, g) && Matches(todo[g], todo[h])
  {
    if Added(s, todo, h) {
      g := h;
    } else {
      g :| g < h && Added(s, todo, g) && Matches(todo[g], todo[h]);
    }
  }

  /** The orphans strictly broader than `x`. */
  ghost function Above(s: seq<Subject>, todo: seq<Subject>, x: Subject): set<Subject> {
    set k | k in todo && Orphan(s, k) && k != x && Matches(k, x)
  }

  lemma {:induction false} MaximalAbove(u: iset<Subject>, s: seq<Subject>, todo: seq<Subject>, x: Subject)
      returns (y: Subject)
    requires InUniverse(u, todo) && x in todo && Orphan(s, x)
    ensures y in todo && Orphan(s, y) && Matches(y, x) && Above(s, todo, y) == {}
    decreases Above(s, todo, x)
  {
    hide Safe, CoveredBy;
    if Above(s, todo, x) == {} {
      y := x;
    } else {
      var z :| z in Above(s, todo, x);
      forall k | k in Above(s, todo, z) ensures k in Above(s, todo, x) {
        MatchesTransitive(u, k, z, x);
        if k == x { MatchesAntisymmetric(u, x, z); }
      }
      assert z !in Above(s, todo, z);
      y := MaximalAbove(u, s, todo, z);
      MatchesTransitive(u, y, z, x);
    }
  }

  lemma {:induction false} FirstIndex(todo: seq<Subject>, y: Subject) returns (i: nat)
    requires y in todo
    ensures i < |todo| && todo[i] == y && y !in todo[..i]
    decreases |todo|
  {
    if todo[0] == y {
      i := 0;
    } else {
      assert todo == [todo[0]] + todo[1..];
      i := FirstIndex(todo[1..], y);
      i := i + 1;
      assert todo[..i] == [todo[0]] + todo[1..][..i - 1];
    }
  }

  /** The broadest orphans are always registered. */
  lemma MaximalAdded(s: seq<Subject>, todo: seq<Subject>, y: Subject)
    requires y in todo && Orphan(s, y) && Above(s, todo, y) == {}
    ensures Result(s, todo, y)
  {
    var i := FirstIndex(todo, y);
    forall j: nat | j < i && Added(s, todo, j) ensures !Matches(todo[j], todo[i]) {
      assert todo[j] in todo[..i];
      assert todo[j] !in Above(s, todo, y);
    }
  }

  ghost predicate ResultAntichain(s: seq<Subject>, todo: seq<Subject>) {
    forall a, b | Result(s, todo, a) && Result(s, todo, b) && a != b :: !Matches(a, b)
  }

  lemma BroaderFirstSuffices(u: iset<Subject>, s: seq<Subject>, todo: seq<Subject>)
    requires InUniverse(u, todo) && Antichain(s) && BroaderFirst(s, todo)
    requires forall k, q | k in todo && Orphan(s, k) && q in s :: !Matches(k, q)
    ensures ResultAntichain(s, todo)
  {
    hide Safe, Matches;
    forall a, b | Result(s, todo, a) && Result(s, todo, b) && a != b ensures !Matches(a, b) {
      if Matches(a, b) {
        var i: nat :| i < |todo| && todo[i] == b && Added(s, todo, i);
        var j: nat :| j < |todo| && todo[j] == a && Added(s, todo, j);
        var h: nat :| h < i && Orphan(s, todo[h]) && Matches(todo[h], todo[i]);
        var g := AddedCover(s, todo, h);
        MatchesTransitive(u, todo[g], todo[h], todo[i]);
        assert false;
      }
    }
  }

  lemma BroaderFirstNeeded(u: iset<Subject>, s: seq<Subject>, todo: seq<Subject>)
    requires InUniverse(u, todo) && ResultAntichain(s, todo)
    ensures BroaderFirst(s, todo)
  {
    hide Safe, Matches;
    forall i: nat, j: nat | i < |todo| && j < |todo| && todo[j] != todo[i] && Orphan(s, todo[i]) && Orphan(s, todo[j])
                            && Matches(todo[j], todo[i])
      ensures exists h: nat :: h < i && Orphan(s, todo[h]) && Matches(todo[h], todo[i])
    {
      if forall h: nat | h < i && Orphan(s, todo[h]) :: !Matches(todo[h], todo[i]) {
        assert Added(s, todo, i);
        assert Result(s, todo, todo[i]);
        var y := MaximalAbove(u, s, todo, todo[j]);
        MaximalAdded(s, todo, y);
        MatchesTransitive(u, y, todo[j], todo[i]);
        if y == todo[i] { MatchesAntisymmetric(u, todo[i], todo[j]); }
        assert false;
      }
    }
  }

  /**
   Removing a server pattern leaves the set reduced exactly when, among the local
   patterns it orphans, broader ones were subscribed first.
   */
  lemma RemoveAntichainIff(u: iset<Subject>, b: Bus, p: Subject)
    requires Safe(u) && Inv(u, u, b) && Antichain(b.server) && p in b.server
    ensures var left := b.(keys := Without(b.keys, p), handlers := b.handlers - {p});
      Antichain(RemoveServerSub(left, p).server) <==> BroaderFirst(Without(b.server, p), left.keys)
  {
    hide Safe, Matches, Send, CoveredBy, Synced, Adopt, Result, BroaderFirst;
    var left := b.(keys := Without(b.keys, p), handlers := b.handlers - {p});
    var s, todo := Without(b.server, p), left.keys;
    WithoutElements(b.keys, p);
    WithoutElements(b.server, p);
    var c := Send(left.(server := s), UnsubEnv(p));
    SendFrame(left.(server := s), UnsubEnv(p));
    forall q ensures q in Adopt(c, todo).server <==> Result(s, todo, q) { AdoptResult(c, todo, q); }
    forall k, q | k in todo && Orphan(s, k) && q in s ensures !Matches(k, q) {
      var r := CoverOf(b.server, k);
      if r != p { Covers(s, r, k); }
      if Matches(k, q) { MatchesTransitive(u, p, k, q); }
    }
    if BroaderFirst(s, todo) { BroaderFirstSuffices(u, s, todo); }
    if ResultAntichain(s, todo) { BroaderFirstNeeded(u, s, todo); }
  }

  const NARROW := ["a", "b"]
  const BROAD := ["a", ANY]
  const ALL := [REST]

  lemma ExampleMatches()
    ensures Matches(BROAD, NARROW) && !Matches(NARROW, BROAD)
    ensures Matches(ALL, BROAD) && Matches(ALL, NARROW) && !Matches(BROAD, ALL) && !Matches(NARROW, ALL)
  {
    assert "a"[0] != REST[0] && "a"[0] != ANY[0] && "b"[0] != ANY[0] && "b"[0] != REST[0] && ANY[0] != REST[0];
    assert NARROW[1..] == ["b"] && BROAD[1..] == [ANY] && ["b"][1..] == [] && [ANY][1..] == [];
    assert Denotes([ANY], ["b"]) && !Denotes(["b"], [ANY]);
  }

  /** With the only server pattern gone, two local ones are adopted in order, the second unless the first matches it. */
  lemma AdoptTwo(b: Bus, p: Subject, q: Subject, r: Subject)
    requires b.keys == [p, q] && b.server == [r] && p != q && !Matches(p, q)
    ensures var c := RemoveServerSub(b, r); c.server == [p, q] && c.keys == b.keys
  {
    hide Matches, Send;
    assert [r][..0] == [] && Without([r], r) == [];
    var c := Send(b.(server := []), UnsubEnv(r));
    SendFrame(b.(server := []), UnsubEnv(r));
    var c1 := Registered(c, p);
    SendFrame(c.(server := [] + [p]), SubEnv(p));
    assert c1.server == [p];
    var c2 := Registered(c1, q);
    SendFrame(c1.(server := [p] + [q]), SubEnv(q));
    assert [p, q][1..] == [q] && [q][1..] == [];
    assert Adopt(c, b.keys) == Adopt(c1, [q]);
    assert Adopt(c1, [q]) == Adopt(c2, []);
  }

  /** Narrow first: subscribe a.b, a.*, > and drop >, and both narrower patterns end up on the server. */
  lemma NarrowFirstExample(b: Bus)
    requires b.keys == [NARROW, BROAD] && b.server == [ALL]
    ensures BROAD in RemoveServerSub(b, ALL).server && NARROW in RemoveServerSub(b, ALL).server
    ensures !Antichain(RemoveServerSub(b, ALL).server)
  {
    ExampleMatches();
    hide Matches, RemoveServerSub;
    assert NARROW[1] == "b" && BROAD[1] == ANY && "b"[0] != ANY[0];
    AdoptTwo(b, NARROW, BROAD, ALL);
  }

  /** The state of the example is one that three subscribes reach. */
  lemma NarrowFirstReached(rover: string)
    ensures var b := Bus(rover, [], map[], [], [], false, {});
      var b3 := Subscribe(Subscribe(Subscribe(b, NARROW, 0), BROAD, 0), ALL, 0);
      b3.keys == [NARROW, BROAD, ALL] && b3.server == [ALL]
  {
    ExampleMatches();
    assert NARROW[1] == "b" && BROAD[1] == ANY && "b"[0] != ANY[0] && |ALL| == 1;
    hide Matches, Subscribe;
    var b := Bus(rover, [], map[], [], [], false, {});
    FirstSubscribe(b, NARROW);
    var b1 := Subscribe(b, NARROW, 0);
    SubscribeOver(b1, BROAD, NARROW);
    SubscribeOver(Subscribe(b1, BROAD, 0), ALL, BROAD);
  }

  lemma FirstSubscribe(b: Bus, p: Subject)
    requires b.server == [] && b.keys == [] && b.handlers == map[]
    ensures var c := Subscribe(b, p, 0); c.server == [p] && c.keys == [p] && c.handlers == map[p := {0}]
  {
  }

  lemma SubscribeOver(b: Bus, p: Subject, q: Subject)
    requires b.server == [q] && p !in b.handlers && Matches(p, q) && !Matches(q, p) && p != q
    ensures var c := Subscribe(b, p, 0); c.server == [p] && c.keys == b.keys + [p] && c.handlers == b.handlers[p := {0}]
  {
    AbsorbOne(b.(keys := b.keys + [p], handlers := b.handlers[p := {0}]), p, q);
  }

  lemma AbsorbOne(b: Bus, p: Subject, q: Subject)
    requires b.server == [q] && Matches(p, q) && !Matches(q, p) && p != q
    ensures var c := AddServerSub(b, p); c.server == [p] && c.keys == b.keys && c.handlers == b.handlers
  {
    hide Matches, Send;
    assert [q][..0] == [] && Without([q], q) == [] && [q][1..] == [];
    var a := Send(b.(server := []), UnsubEnv(q));
    SendFrame(b.(server := []), UnsubEnv(q));
    assert Absorb(b, p, [q]) == Absorb(a, p, []);
    SendFrame(a.(server := [] + [p]), SubEnv(p));
  }
}
