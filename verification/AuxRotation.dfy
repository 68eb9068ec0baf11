/** Round-robin over the auxiliary servos: core/src/servo/AuxRotation.cpp. */
module AuxRotation {
  import opened Prelude

  datatype Rotation = Rotation(ids: seq<byte>, maxFailures: int, dropped: set<byte>, fails: map<byte, nat>, cursor: nat)

  predicate Valid(r: Rotation) { r.ids == [] || r.cursor < |r.ids| }

  function Advance(r: Rotation): nat { if r.cursor + 1 >= |r.ids| then 0 else r.cursor + 1 }

  datatype Picked = Picked(out: seq<byte>, rot: Rotation)

  /** Scans at most `left` positions for at most `need` active ids. */
  function Scan(r: Rotation, need: nat, left: nat): Picked
    requires Valid(r) && r.ids != []
    decreases left
  {
    if need == 0 || left == 0 then Picked([], r)
    else
      var id, r' := r.ids[r.cursor], r.(cursor := Advance(r));
      if id in r.dropped then Scan(r', need, left - 1)
      else var p := Scan(r', need - 1, left - 1); p.(out := [id] + p.out)
  }

  function Pick(r: Rotation, k: int): Picked
    requires Valid(r)
  {
    if r.ids == [] || k <= 0 then Picked([], r) else Scan(r, k, |r.ids|)
  }

  function FailsOf(r: Rotation, id: byte): nat { if id in r.fails then r.fails[id] else 0 }

  function Recorded(r: Rotation, id: byte, ok: bool): Rotation {
    if id in r.dropped then r
    else if ok then r.(fails := r.fails[id := 0])
    else
      var n := FailsOf(r, id) + 1;
      r.(fails := r.fails[id := n], dropped := if n >= r.maxFailures then r.dropped + {id} else r.dropped)
  }

  class AuxRotation {
    var state: Rotation

    constructor (ids: seq<byte>, maxFailures: int)
      ensures state == Rotation(ids, maxFailures, {}, map[], 0)
    {
      state := Rotation(ids, maxFailures, {}, map[], 0);
    }

    method Next(k: int) returns (out: seq<byte>)
      requires Valid(state)
      modifies this
      ensures Valid(state) && Picked(out, state) == Pick(old(state), k)
    {
      out := [];
      if state.ids == [] || k <= 0 { return; }
      var scanned := 0;
      while |out| < k && scanned < |state.ids|
        invariant Valid(state) && state.ids == old(state).ids && scanned <= |state.ids| && |out| <= k
        invariant Pick(old(state), k) == PickedAfter(out, Scan(state, k - |out|, |state.ids| - scanned))
        decreases |state.ids| - scanned
      {
        hide Pick;
        ScanStep(state, out, k - |out|, |state.ids| - scanned);
        AdvanceIsMod(state);
        var id := state.ids[state.cursor];
        state := state.(cursor := (state.cursor + 1) % |state.ids|);
        scanned := scanned + 1;
        if id !in state.dropped { out := out + [id]; }
      }
    }

    method RecordResult(id: byte, ok: bool)
      modifies this
      ensures state == Recorded(old(state), id, ok)
    {
      if id in state.dropped { return; }
      if ok {
        state := state.(fails := state.fails[id := 0]);
      } else {
        var n := (if id in state.fails then state.fails[id] else 0) + 1;
        state := state.(fails := state.fails[id := n]);
        if n >= state.maxFailures { state := state.(dropped := state.dropped + {id}); }
      }
    }
  }

  function PickedAfter(out: seq<byte>, p: Picked): Picked { p.(out := out + p.out) }

  lemma ScanStep(r: Rotation, out: seq<byte>, need: nat, left: nat)
    requires Valid(r) && r.ids != [] && need > 0 && left > 0
    ensures var id, r' := r.ids[r.cursor], r.(cursor := Advance(r));
      PickedAfter(out, Scan(r, need, left)) ==
        if id in r.dropped then PickedAfter(out, Scan(r', need, left - 1))
        else PickedAfter(out + [id], Scan(r', need - 1, left - 1))
  {
  }

  lemma AdvanceIsMod(r: Rotation)
    requires Valid(r) && r.ids != []
    ensures (r.cursor + 1) % |r.ids| == Advance(r)
  {
  }

  // ----- One call

  /** How many positions the cursor is away from index `x`. */
  function Dist(r: Rotation, x: nat): nat
    requires Valid(r) && x < |r.ids|
  {
    if x >= r.cursor then x - r.cursor else x + |r.ids| - r.cursor
  }

  /** An active id within reach is picked, or `need` others were picked while closing in on it. */
  lemma {:induction false} ScanReaches(r: Rotation, need: nat, left: nat, x: nat)
    requires Valid(r) && x < |r.ids| && r.ids[x] !in r.dropped && Dist(r, x) < left
    ensures var p := Scan(r, need, left);
      Valid(p.rot) && p.rot == r.(cursor := p.rot.cursor) && (r.ids[x] in p.out || Dist(p.rot, x) + need <= Dist(r, x))
    decreases left
  {
    if need > 0 {
      var r' := r.(cursor := Advance(r));
      var need' := if r.ids[r.cursor] in r.dropped then need else need - 1;
      if r.cursor == x {
        ScanFrame(r', need', left - 1);
      } else {
        ScanReaches(r', need', left - 1, x);
      }
    }
  }

  lemma {:induction false} ScanFrame(r: Rotation, need: nat, left: nat)
    requires Valid(r) && r.ids != []
    ensures var p := Scan(r, need, left); Valid(p.rot) && p.rot == r.(cursor := p.rot.cursor) && |p.out| <= need
    decreases left
  {
    if need > 0 && left > 0 {
      var r' := r.(cursor := Advance(r));
      ScanFrame(r', if r.ids[r.cursor] in r.dropped then need else need - 1, left - 1);
    }
  }

  predicate Distinct(s: seq<byte>) { forall i, j | 0 <= i < j < |s| :: s[i] != s[j] }

  /** The id is at some place less than `left` ahead of the cursor. */
  ghost predicate Within(r: Rotation, id: byte, left: nat)
    requires Valid(r)
  {
    exists x :: 0 <= x < |r.ids| && r.ids[x] == id && Dist(r, x) < left
  }

  /** Each picked id is active and sits at its own position within the scanned stretch. */
  lemma {:induction false} ScanDistinct(r: Rotation, need: nat, left: nat)
    requires Valid(r) && r.ids != [] && Distinct(r.ids) && left <= |r.ids|
    ensures var p := Scan(r, need, left);
      Distinct(p.out) && forall id | id in p.out :: id !in r.dropped && Within(r, id, left)
    decreases left
  {
    if need > 0 && left > 0 {
      var id, r' := r.ids[r.cursor], r.(cursor := Advance(r));
      var q := Scan(r', if id in r.dropped then need else need - 1, left - 1);
      ScanDistinct(r', if id in r.dropped then need else need - 1, left - 1);
      forall o | o in q.out ensures o !in r.dropped && o != id && Within(r, o, left) {
        var x :| 0 <= x < |r.ids| && r.ids[x] == o && Dist(r', x) < left - 1;
        assert Dist(r, x) == Dist(r', x) + 1;
      }
      assert Dist(r, r.cursor) == 0;
    }
  }

  /** A call returns at most `k` ids, distinct and active. */
  lemma PickIsSound(r: Rotation, k: int)
    requires Valid(r) && Distinct(r.ids)
    ensures Valid(Pick(r, k).rot) && |Pick(r, k).out| <= (if k > 0 then k else 0) && Distinct(Pick(r, k).out)
    ensures forall id | id in Pick(r, k).out :: id in r.ids && id !in r.dropped
  {
    if r.ids != [] && k > 0 {
      ScanFrame(r, k, |r.ids|);
      ScanDistinct(r, k, |r.ids|);
    }
  }

  // ----- Any window of calls

  datatype Event = NextCall(k: int) | Result(id: byte, ok: bool)

  function Stepped(r: Rotation, e: Event): (q: Rotation)
    requires Valid(r)
    ensures Valid(q) && q.ids == r.ids && q.maxFailures == r.maxFailures && r.dropped <= q.dropped
  {
    match e
    case NextCall(k) => PickValid(r, k); Pick(r, k).rot
    case Result(id, ok) => Recorded(r, id, ok)
  }

  function After(r: Rotation, es: seq<Event>): Rotation
    requires Valid(r)
    decreases |es|
  {
    if es == [] then r else After(Stepped(r, es[0]), es[1..])
  }

  /** Everything the calls of the window return. */
  function Served(r: Rotation, es: seq<Event>): seq<byte>
    requires Valid(r)
    decreases |es|
  {
    if es == [] then []
    else match es[0]
      case NextCall(k) => PickValid(r, k); Pick(r, k).out + Served(Pick(r, k).rot, es[1..])
      case Result(id, ok) => Served(Recorded(r, id, ok), es[1..])
  }

  lemma PickValid(r: Rotation, k: int)
    requires Valid(r)
    ensures Valid(Pick(r, k).rot) && Pick(r, k).rot == r.(cursor := Pick(r, k).rot.cursor)
  {
    if r.ids != [] && k > 0 { ScanFrame(r, k, |r.ids|); }
  }

  function Asked(es: seq<Event>): nat
    decreases |es|
  {
    if es == [] then 0
    else (if es[0].NextCall? && es[0].k > 0 then es[0].k else 0) + Asked(es[1..])
  }

  lemma {:induction false} AfterFrame(r: Rotation, es: seq<Event>)
    requires Valid(r)
    ensures Valid(After(r, es)) && After(r, es).ids == r.ids && r.dropped <= After(r, es).dropped
    ensures After(r, es).maxFailures == r.maxFailures
    decreases |es|
  {
    if es != [] { AfterFrame(Stepped(r, es[0]), es[1..]); }
  }

  lemma {:induction false} AfterLast(r: Rotation, es: seq<Event>)
    requires Valid(r) && es != []
    ensures Valid(After(r, es[..|es| - 1])) && After(r, es) == Stepped(After(r, es[..|es| - 1]), es[|es| - 1])
    decreases |es|
  {
    hide Stepped;
    AfterFrame(r, es[..|es| - 1]);
    if |es| > 1 {
      assert es[1..][..|es| - 2] == es[..|es| - 1][1..];
      AfterLast(Stepped(r, es[0]), es[1..]);
    }
  }

  /** As long as an active id goes unserved, everything asked for brings the cursor nearer to it. */
  lemma {:induction false} Unserved(r: Rotation, es: seq<Event>, x: nat)
    requires Valid(r) && x < |r.ids| && r.ids[x] !in After(r, es).dropped && r.ids[x] !in Served(r, es)
    ensures Asked(es) <= Dist(r, x)
    decreases |es|
  {
    if es != [] {
      AfterFrame(r, es);
      match es[0]
      case NextCall(k) =>
        PickValid(r, k);
        if k > 0 { ScanReaches(r, k, |r.ids|, x); }
        Unserved(Pick(r, k).rot, es[1..], x);
      case Result(id, ok) => Unserved(Recorded(r, id, ok), es[1..], x);
    }
  }

  /**
   Fairness: once the calls of a window, with results recorded in between in any
   order, have asked for as many ids as there are, every id that is still active at
   the end has been returned. With `k` per call that is ceil(n / k) calls.
   */
  lemma Fair(r: Rotation, es: seq<Event>, x: nat)
    requires Valid(r) && x < |r.ids| && Asked(es) >= |r.ids| && r.ids[x] !in After(r, es).dropped
    ensures r.ids[x] in Served(r, es)
  {
    if r.ids[x] !in Served(r, es) { Unserved(r, es, x); }
  }

  /** The calls of `next` in a window. */
  function NextCalls(es: seq<Event>): set<nat> { set i | 0 <= i < |es| && es[i].NextCall? }

  lemma {:induction false} AskedPerCall(es: seq<Event>, k: nat)
    requires forall e | e in es && e.NextCall? :: e.k == k
    ensures Asked(es) == |NextCalls(es)| * k
    decreases |es|
  {
    if es != [] {
      AskedPerCall(es[1..], k);
      ShiftedCalls(es);
    }
  }

  lemma ShiftedCalls(es: seq<Event>)
    requires es != []
    ensures |NextCalls(es)| == |NextCalls(es[1..])| + if es[0].NextCall? then 1 else 0
  {
    var later := set i | i in NextCalls(es[1..]) :: i + 1;
    SameSize(NextCalls(es[1..]), later);
    var first: set<nat> := if es[0].NextCall? then {0} else {};
    forall i ensures i in NextCalls(es) <==> i in first + later {
      if i in NextCalls(es) && i > 0 { assert i - 1 in NextCalls(es[1..]); }
    }
    assert NextCalls(es) == first + later;
  }

  lemma {:induction false} SameSize(a: set<nat>, b: set<nat>)
    requires b == set i | i in a :: i + 1
    ensures |a| == |b|
    decreases |a|
  {
    if a != {} {
      var x :| x in a;
      var b' := set i | i in a - {x} :: i + 1;
      SameSize(a - {x}, b');
      forall y ensures y in b <==> y in b' + {x + 1} {
        if y in b { var i :| i in a && y == i + 1; assert i == x || i in a - {x}; }
      }
      assert b == b' + {x + 1};
    }
  }

  /** With `k` ids to a call, ceil(n / k) calls serve every id that stays active, whatever results come in between. */
  lemma FairInRounds(r: Rotation, es: seq<Event>, k: nat, x: nat)
    requires Valid(r) && x < |r.ids| && r.ids[x] !in After(r, es).dropped
    requires forall e | e in es && e.NextCall? :: e.k == k
    requires |set i | 0 <= i < |es| && es[i].NextCall?| * k >= |r.ids|
    ensures r.ids[x] in Served(r, es)
  {
    AskedPerCall(es, k);
    assert NextCalls(es) == set i | 0 <= i < |es| && es[i].NextCall?;
    Fair(r, es, x);
  }

  // ----- When an id is dropped

  function ResultsOf(es: seq<Event>, id: byte): seq<bool> {
    if es == [] then []
    else
      var e := es[|es| - 1];
      ResultsOf(es[..|es| - 1], id) + if e.Result? && e.id == id then [e.ok] else []
  }

  predicate FailureRun(results: seq<bool>, m: nat) {
    exists i :: 0 <= i && i + m <= |results| && AllFailed(results, i, m)
  }

  predicate AllFailed(results: seq<bool>, i: nat, m: nat)
    requires i + m <= |results|
  {
    forall j | i <= j < i + m :: !results[j]
  }

  function Trailing(results: seq<bool>): (n: nat)
    ensures n <= |results|
  {
    if results == [] || results[|results| - 1] then 0 else 1 + Trailing(results[..|results| - 1])
  }

  lemma {:induction false} TrailingFailed(results: seq<bool>, m: nat)
    ensures m <= |results| ==> (AllFailed(results, |results| - m, m) <==> m <= Trailing(results))
    decreases |results|
  {
    if 0 < m <= |results| {
      var n := |results| - 1;
      TrailingFailed(results[..n], m - 1);
      if !results[n] {
        assert AllFailed(results, |results| - m, m) <==> AllFailed(results[..n], n - (m - 1), m - 1);
      }
    }
  }

  lemma RunExtends(results: seq<bool>, ok: bool, m: nat)
    requires m >= 1
    ensures FailureRun(results + [ok], m) <==> FailureRun(results, m) || m <= Trailing(results + [ok])
  {
    var r := results + [ok];
    if FailureRun(r, m) {
      var i :| 0 <= i && i + m <= |r| && AllFailed(r, i, m);
      if i + m == |r| {
        TrailingFailed(r, m);
      } else {
        forall j | i <= j < i + m ensures !results[j] { assert !r[j]; }
        assert AllFailed(results, i, m);
      }
    }
    if FailureRun(results, m) {
      var i :| 0 <= i && i + m <= |results| && AllFailed(results, i, m);
      assert AllFailed(r, i, m);
    }
    if m <= Trailing(r) {
      TrailingFailed(r, m);
      assert AllFailed(r, |r| - m, m);
    }
  }

  /** A limit below one drops on the first failure, like a limit of one. */
  function Limit(maxFailures: int): nat { if maxFailures < 1 then 1 else maxFailures }

  /** From a fresh rotation, an id is dropped exactly when its results contain the limit of failures in a row. */
  lemma {:induction false} DroppedIff(ids: seq<byte>, maxFailures: int, es: seq<Event>, id: byte)
    ensures var r := After(Rotation(ids, maxFailures, {}, map[], 0), es);
      && (id in r.dropped <==> FailureRun(ResultsOf(es, id), Limit(maxFailures)))
      && (id !in r.dropped ==> FailsOf(r, id) == Trailing(ResultsOf(es, id)))
    decreases |es|
  {
    if es != [] {
      var init, e := es[..|es| - 1], es[|es| - 1];
      var start := Rotation(ids, maxFailures, {}, map[], 0);
      var q := After(start, init);
      AfterLast(start, es);
      AfterFrame(start, init);
      DroppedIff(ids, maxFailures, init, id);
      if e.NextCall? { PickValid(q, e.k); }
      var results := ResultsOf(init, id);
      if e.Result? && e.id == id {
        RunExtends(results, e.ok, Limit(maxFailures));
        assert (results + [e.ok])[..|results|] == results;
        hide FailureRun;
      } else {
        assert ResultsOf(es, id) == results;
        hide FailureRun, Trailing, Pick;
      }
    }
  }
}
