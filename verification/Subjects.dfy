/**
 NATS subjects and wildcard patterns, and the matcher of dashboard/src/state/nats.ts
 used both on concrete subjects and, between patterns, as a test of containment.
 */
module Subjects {
  import opened Prelude

  type Subject = seq<string>

  const ANY := "*"
  const REST := ">"

  // ----- Splitting at dots

  function Split(s: string): seq<string> { SplitAt(s, '.') }

  function Join(t: Subject): string
    requires t != []
    decreases |t|
  {
    if |t| == 1 then t[0] else t[0] + "." + Join(t[1..])
  }

  lemma {:induction false} JoinSplit(s: string)
    ensures Join(Split(s)) == s
    decreases |s|
  {
    if s != "" {
      JoinSplit(s[1..]);
      var r := Split(s[1..]);
      if s[0] == '.' {
        assert ([""] + r)[1..] == r;
      } else {
        assert ([[s[0]] + r[0]] + r[1..])[1..] == r[1..];
      }
    }
  }

  lemma SplitInjective(a: string, b: string)
    ensures Split(a) == Split(b) <==> a == b
  {
    JoinSplit(a);
    JoinSplit(b);
  }

  // ----- What a pattern denotes

  /** `*` stands for one token, a final `>` for one or more. */
  predicate Denotes(p: Subject, s: Subject)
    decreases |p|
  {
    if p == [] then s == []
    else if p[0] == REST then |p| == 1 && s != []
    else s != [] && (p[0] == ANY || p[0] == s[0]) && Denotes(p[1..], s[1..])
  }

  predicate Wild(t: string) { t == ANY || t == REST }

  predicate Concrete(s: Subject) { forall t | t in s :: !Wild(t) }

  /** `>` is final wherever it occurs. */
  predicate Valid(p: Subject) { forall i | 0 <= i < |p| - 1 :: p[i] != REST }

  /** What the matcher answers on token sequences. */
  predicate Matches(p: Subject, s: Subject) { p == s || Denotes(p, s) }

  method MatchesSubject(pattern: string, subject: string) returns (r: bool)
    ensures r == Matches(Split(pattern), Split(subject))
  {
    SplitInjective(pattern, subject);
    if pattern == subject { return true; }
    var p, s := Split(pattern), Split(subject);
    for i := 0 to |p|
      invariant i <= |s|
      invariant Denotes(p, s) == Denotes(p[i..], s[i..])
    {
      assert p[i..][1..] == p[i + 1..];
      if p[i] == REST { return i == |p| - 1 && i < |s|; }
      if i >= |s| { return false; }
      assert s[i..][1..] == s[i + 1..];
      if p[i] == ANY { continue; }
      if p[i] != s[i] { return false; }
    }
    return |p| == |s|;
  }

  lemma {:induction false} DenotesSelf(p: Subject)
    requires Valid(p)
    ensures Denotes(p, p)
    decreases |p|
  {
    if p != [] && p[0] != REST { DenotesSelf(p[1..]); }
  }

  /** On concrete subjects the matcher is the wildcard semantics, for every pattern, even one with `>` inside. */
  lemma MatchesConcrete(p: Subject, s: Subject)
    requires Concrete(s)
    ensures Matches(p, s) <==> Denotes(p, s)
  {
    if p == s {
      assert forall i | 0 <= i < |p| :: p[i] in s;
      DenotesSelf(p);
    }
  }

  // ----- The matcher between patterns

  /** Every concrete subject of `p` is one of `q`. */
  ghost predicate Contains(q: Subject, p: Subject) {
    forall s | Concrete(s) && Denotes(p, s) :: Denotes(q, s)
  }

  /** The one shape that fools the matcher: `*` against `>` in the last place. */
  predicate Overreach(q: Subject, p: Subject) {
    |q| == |p| > 0 && q[|q| - 1] == ANY && p[|p| - 1] == REST
  }

  lemma {:induction false} MatchSound(q: Subject, p: Subject, s: Subject)
    requires Valid(q) && Valid(p) && Denotes(q, p) && !Overreach(q, p) && Concrete(s) && Denotes(p, s)
    ensures Denotes(q, s)
    decreases |q|
  {
    if q != [] && q[0] != REST && p[0] != REST {
      MatchSound(q[1..], p[1..], s[1..]);
    }
  }

  /** A subject of `p`, wildcards replaced by `f`. */
  function Instance(p: Subject, f: string): Subject {
    seq(|p|, i requires 0 <= i < |p| => if Wild(p[i]) then f else p[i])
  }

  lemma {:induction false} InstanceDenoted(p: Subject, f: string)
    requires Valid(p) && !Wild(f)
    ensures Denotes(p, Instance(p, f)) && Concrete(Instance(p, f))
    decreases |p|
  {
    if p != [] && p[0] != REST {
      assert Instance(p, f)[1..] == Instance(p[1..], f);
      InstanceDenoted(p[1..], f);
    }
  }

  /** A subject of `p` outside `q`, built from a token `q` does not mention. */
  lemma {:induction false} Separate(q: Subject, p: Subject, f: string) returns (s: Subject)
    requires Valid(q) && Valid(p) && !Wild(f) && f !in q
    requires !Denotes(q, p) || Overreach(q, p)
    ensures Concrete(s) && Denotes(p, s) && !Denotes(q, s)
    decreases |p|
  {
    if p == [] {
      s := [];
    } else if p[0] == REST {
      s := if q == [ANY] then [f, f] else [f];
      if q != [] { assert q[0] in q; }
    } else if q != [] && (q[0] == ANY || q[0] == p[0]) {
      var tail := Separate(q[1..], p[1..], f);
      s := [if p[0] == ANY then f else p[0]] + tail;
      assert s[1..] == tail;
    } else {
      s := Instance(p, f);
      InstanceDenoted(p, f);
      if q != [] { assert q[0] in q; }
    }
  }

  function Longer(q: Subject): (f: string)
    ensures |f| >= 2 && forall t | t in q :: |t| < |f|
  {
    if q == [] then "xx" else var f := Longer(q[1..]); if |q[0]| < |f| then f else q[0] + "x"
  }

  /** Between patterns the matcher decides containment, exactly, except for the overreaching shape. */
  lemma ContainsIff(q: Subject, p: Subject)
    requires Valid(q) && Valid(p)
    ensures Contains(q, p) <==> Matches(q, p) && !Overreach(q, p)
  {
    DenotesSelf(p);
    if Matches(q, p) && !Overreach(q, p) {
      forall s | Concrete(s) && Denotes(p, s) ensures Denotes(q, s) { MatchSound(q, p, s); }
    } else {
      assert !Denotes(q, p) || Overreach(q, p);
      var s := Separate(q, p, Longer(q));
    }
  }

  /** The shape at its smallest: `*` matches the pattern `>`, which contains more. */
  lemma OverreachExample()
    ensures Matches(["a", ANY], ["a", REST]) && !Contains(["a", ANY], ["a", REST])
    ensures Matches(["a", REST], ["a", "b", "c"]) && !Matches(["a", ANY], ["a", "b", "c"])
  {
    var q, p, s := ["a", ANY], ["a", REST], ["a", "b", "c"];
    assert "a"[0] != REST[0] && ANY[0] != REST[0];
    assert q[1..] == [ANY] && p[1..] == [REST] && s[1..] == ["b", "c"];
    assert [ANY][1..] == [] && [REST][1..] == [] && ["b", "c"][1..] == ["c"];
    assert !Denotes([], ["c"]) && Denotes([], []);
    assert Denotes([ANY], [REST]) && Denotes([REST], ["b", "c"]);
    assert Denotes([ANY], ["b", "c"]) == Denotes([ANY][1..], ["b", "c"][1..]);
    ContainsIff(q, p);
  }

  // ----- A set of patterns on which the matcher is an order

  ghost predicate Safe(u: iset<Subject>) {
    && (forall p | p in u :: Valid(p))
    && (forall q, p | q in u && p in u && Matches(q, p) :: !Overreach(q, p))
  }

  /**
   Over `u`, a pattern in `w` is matched only by patterns that are in `w` too and do
   not overreach it. A set is safe if it protects itself.
   */
  ghost predicate Protects(u: iset<Subject>, w: iset<Subject>) {
    && (forall p | p in u :: Valid(p))
    && (forall q, p | q in u && p in u && p in w && Matches(q, p) :: q in w && !Overreach(q, p))
  }

  lemma ProtectedTransitive(u: iset<Subject>, w: iset<Subject>, a: Subject, b: Subject, c: Subject)
    requires Protects(u, w) && a in u && b in u && c in u && c in w && Matches(a, b) && Matches(b, c)
    ensures Matches(a, c)
  {
    ContainsIff(a, b);
    ContainsIff(b, c);
    ContainsIff(a, c);
  }

  lemma MatchesTransitive(u: iset<Subject>, a: Subject, b: Subject, c: Subject)
    requires Safe(u) && a in u && b in u && c in u && Matches(a, b) && Matches(b, c)
    ensures Matches(a, c)
  {
    ProtectedTransitive(u, u, a, b, c);
  }

  lemma {:induction false} DenotesBothWays(a: Subject, b: Subject)
    requires Valid(a) && Valid(b) && Denotes(a, b) && Denotes(b, a) && !Overreach(a, b) && !Overreach(b, a)
    ensures a == b
    decreases |a|
  {
    if a != [] && a[0] != REST && b[0] != REST { DenotesBothWays(a[1..], b[1..]); }
  }

  lemma MatchesAntisymmetric(u: iset<Subject>, a: Subject, b: Subject)
    requires Safe(u) && a in u && b in u && Matches(a, b) && Matches(b, a)
    ensures a == b
  {
    if a != b { DenotesBothWays(a, b); }
  }
}
