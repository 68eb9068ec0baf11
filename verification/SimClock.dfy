/**
 The controlled simulation clock: core/src/util/Clock.cpp, with the loop thread that
 sleeps on it and the reader thread that grants time. Each section between lock and
 wait is one step; shutdown is not modelled. Times are milliseconds.
 */
module SimClock {
  import opened Prelude

  /** In a control-loop pass, or inside `sleepFor` waiting for time. */
  datatype Loop = Running | Sleeping

  /** `passes` records the virtual time of every completed pass, `grants` every grant so far. */
  datatype Clock = Clock(pending: nat, consumed: nat, awaiting: bool, loop: Loop, granting: bool,
                         passes: seq<nat>, grants: seq<nat>)

  const START := Clock(0, 0, false, Running, false, [], [])

  datatype Event = Enter | Wake | Grant(ms: nat) | Return

  predicate Enabled(c: Clock, e: Event) {
    match e
    case Enter => c.loop == Running
    case Wake => c.loop == Sleeping && c.pending > 0
    case Grant(_) => !c.granting
    case Return => c.granting && c.pending == 0 && !c.awaiting
  }

  /** The loop always sleeps for the same slice `d`. */
  function Step(d: nat, c: Clock, e: Event): Clock
    requires Enabled(c, e)
  {
    match e
    case Enter => c.(awaiting := false, loop := Sleeping, passes := c.passes + [c.consumed])
    case Wake =>
      var step := Min(c.pending, d);
      c.(pending := c.pending - step, consumed := c.consumed + step,
         awaiting := c.awaiting || c.pending == step, loop := Running)
    case Grant(ms) => c.(pending := c.pending + ms, granting := true, grants := c.grants + [ms])
    case Return => c.(granting := false)
  }

  class SimClock {
    var pendingMs: nat
    var consumed: nat
    var awaitingTickPass: bool
    ghost var loop: Loop
    ghost var granting: bool
    ghost var passes: seq<nat>
    ghost var grants: seq<nat>

    ghost function State(): Clock
      reads this
    {
      Clock(pendingMs, consumed, awaitingTickPass, loop, granting, passes, grants)
    }

    constructor ()
      ensures State() == START
    {
      pendingMs, consumed, awaitingTickPass := 0, 0, false;
      loop, granting, passes, grants := Running, false, [], [];
    }

    /** `sleepFor` up to its wait. */
    method SleepBegin()
      requires Enabled(State(), Enter)
      modifies this
      ensures forall d :: State() == Step(d, old(State()), Enter)
    {
      if awaitingTickPass { awaitingTickPass := false; }
      passes, loop := passes + [consumed], Sleeping;
    }

    /** `sleepFor` from the end of its wait. */
    method SleepEnd(d: nat)
      requires Enabled(State(), Wake)
      modifies this
      ensures State() == Step(d, old(State()), Wake)
    {
      var step := Min(pendingMs, d);
      pendingMs := pendingMs - step;
      consumed := consumed + step;
      if pendingMs == 0 { awaitingTickPass := true; }
      loop := Running;
    }

    method GrantBegin(ms: nat)
      requires Enabled(State(), Grant(ms))
      modifies this
      ensures forall d :: State() == Step(d, old(State()), Grant(ms))
    {
      pendingMs := pendingMs + ms;
      granting, grants := true, grants + [ms];
    }

    /** The wait of `grantAndWait` is over; the reply carries the virtual time in nanoseconds. */
    method GrantEnd() returns (ns: nat)
      requires Enabled(State(), Return)
      modifies this
      ensures ns == consumed * 1_000_000
      ensures forall d :: State() == Step(d, old(State()), Return)
    {
      ns := consumed * 1_000_000;
      granting := false;
    }
  }

  // ----- The schedule that the grants alone determine

  function Total(grants: seq<nat>): nat {
    if grants == [] then 0 else Total(grants[..|grants| - 1]) + grants[|grants| - 1]
  }

  /** Virtual times of the passes that spend `ms` from time `t` on. */
  function Slices(d: nat, t: nat, ms: nat): seq<nat>
    requires d > 0
    decreases ms
  {
    if ms == 0 then [] else var s := Min(ms, d); [t + s] + Slices(d, t + s, ms - s)
  }

  /** One pass at time zero, then the slices of each grant. */
  function Schedule(d: nat, grants: seq<nat>): seq<nat>
    requires d > 0
  {
    if grants == [] then [0]
    else
      var before := grants[..|grants| - 1];
      Schedule(d, before) + Slices(d, Total(before), grants[|grants| - 1])
  }

  lemma {:induction false} SliceCount(d: nat, t: nat, ms: nat)
    requires d > 0
    ensures |Slices(d, t, ms)| == (ms + d - 1) / d
    decreases ms
  {
    if ms > d {
      SliceCount(d, t + d, ms - d);
      DivStep(ms + d - 1, d);
    } else if ms > 0 {
      assert Slices(d, t + ms, 0) == [];
      DivOne(ms, d);
    } else {
      DivZero(d);
    }
  }

  lemma DivStep(n: nat, d: nat)
    requires d > 0 && n >= d
    ensures n / d == (n - d) / d + 1
  {
    var q, r := (n - d) / d, (n - d) % d;
    assert n == (q + 1) * d + r;
    DivModUnique(n, d, q + 1, r);
  }

  lemma DivOne(ms: nat, d: nat)
    requires 0 < ms <= d
    ensures (ms + d - 1) / d == 1
  {
    DivModUnique(ms + d - 1, d, 1, ms - 1);
  }

  lemma DivZero(d: nat)
    requires d > 0
    ensures (0 + d - 1) / d == 0
  {
    DivModUnique(d - 1, d, 0, d - 1);
  }

  // ----- Every interleaving follows the schedule

  /** Passes still to come: the one in progress, and those the pending time will buy. */
  function Remaining(d: nat, c: Clock): seq<nat>
    requires d > 0
  {
    (if c.loop == Running then [c.consumed] else []) + Slices(d, c.consumed, c.pending)
  }

  ghost predicate Inv(d: nat, c: Clock)
    requires d > 0
  {
    && c.consumed + c.pending == Total(c.grants)
    && (!c.granting ==> c.pending == 0 && !c.awaiting)
    && (c.awaiting ==> c.pending == 0 && c.loop == Running)
    && c.passes + Remaining(d, c) == Schedule(d, c.grants)
    && (c.loop == Running && c.consumed > 0 && c.pending == 0 ==> c.awaiting)
  }

  lemma InvStep(d: nat, c: Clock, e: Event)
    requires d > 0 && Inv(d, c) && Enabled(c, e)
    ensures Inv(d, Step(d, c, e))
  {
    var c' := Step(d, c, e);
    match e
    case Enter => assert c'.passes + Remaining(d, c') == c.passes + Remaining(d, c);
    case Wake => assert Remaining(d, c) == Remaining(d, c');
    case Grant(ms) =>
      assert c'.grants[..|c'.grants| - 1] == c.grants;
      assert Remaining(d, c') == Remaining(d, c) + Slices(d, c.consumed, ms);
      assert c'.passes + Remaining(d, c') == c.passes + Remaining(d, c) + Slices(d, c.consumed, ms);
    case Return =>
  }

  ghost predicate IsRun(d: nat, states: seq<Clock>, events: seq<Event>) {
    && d > 0 && |states| == |events| + 1 && states[0] == START
    && forall i | 0 <= i < |events| :: Enabled(states[i], events[i]) && states[i + 1] == Step(d, states[i], events[i])
  }

  lemma {:induction false} InvAlong(d: nat, states: seq<Clock>, events: seq<Event>, i: nat)
    requires IsRun(d, states, events) && i < |states|
    ensures Inv(d, states[i])
    decreases i
  {
    if i > 0 {
      InvAlong(d, states, events, i - 1);
      InvStep(d, states[i - 1], events[i - 1]);
    }
  }

  /** No time is made or lost, and one sleep never advances the clock by more than its slice. */
  lemma TimeConserved(d: nat, states: seq<Clock>, events: seq<Event>, i: nat)
    requires IsRun(d, states, events) && i < |events|
    ensures states[i].consumed + states[i].pending == Total(states[i].grants)
    ensures states[i].consumed <= states[i + 1].consumed <= states[i].consumed + d
  {
    InvAlong(d, states, events, i);
  }

  /**
   When a grant returns and any time has ever been granted, all of it is consumed, the
   loop is parked in `sleepFor`, and the passes it has completed are those of the
   schedule: which passes ran, and at what virtual times, depends on the grants alone.
   */
  lemma GrantReturnsAfterItsPasses(d: nat, states: seq<Clock>, events: seq<Event>, i: nat)
    requires IsRun(d, states, events) && i < |events| && events[i].Return? && Total(states[i].grants) > 0
    ensures states[i].consumed == Total(states[i].grants) && states[i].loop == Sleeping
    ensures states[i].passes == Schedule(d, states[i].grants)
  {
    InvAlong(d, states, events, i);
  }

  /** A grant costs the loop at most ceil(ms / d) + 1 entries into `sleepFor`. */
  lemma EntriesPerGrant(d: nat, states: seq<Clock>, events: seq<Event>, i: nat, j: nat)
    requires IsRun(d, states, events) && i < j < |events| && events[i].Grant? && events[i].ms > 0
    requires events[j].Return? && states[j].grants == states[i + 1].grants
    ensures |states[j].passes| - |states[i].passes| <= (events[i].ms + d - 1) / d + 1
  {
    InvAlong(d, states, events, i);
    InvAlong(d, states, events, j);
    hide Schedule, Remaining, Inv;
    var ms := events[i].ms;
    assert states[i + 1].grants == states[i].grants + [ms];
    ScheduleGrows(d, states[i].grants, ms);
    PassesLeft(d, states[i]);
    PassesLeft(d, states[j]);
  }

  lemma ScheduleGrows(d: nat, grants: seq<nat>, ms: nat)
    requires d > 0
    ensures |Schedule(d, grants + [ms])| == |Schedule(d, grants)| + (ms + d - 1) / d
  {
    assert (grants + [ms])[..|grants|] == grants;
    SliceCount(d, Total(grants), ms);
  }

  lemma PassesLeft(d: nat, c: Clock)
    requires d > 0 && Inv(d, c)
    ensures |c.passes| <= |Schedule(d, c.grants)|
    ensures !c.granting ==> |Schedule(d, c.grants)| <= |c.passes| + 1
  {
    hide Schedule;
  }

  // ----- No deadlock, and progress

  /** Loop steps left before a waiting grant can return. */
  function Distance(d: nat, c: Clock): nat
    requires d > 0
  {
    2 * |Slices(d, c.consumed, c.pending)| + if c.loop == Running then 1 else 0
  }

  /** A waiting grant can return, or the loop can take a step that brings the return nearer. */
  lemma GrantProgresses(d: nat, c: Clock)
    requires d > 0 && Inv(d, c) && c.granting && !Enabled(c, Return)
    ensures var e := if c.loop == Running then Enter else Wake;
      Enabled(c, e) && Distance(d, Step(d, c, e)) < Distance(d, c)
  {
  }

  // ----- The records in terms of the calls made

  function GrantsOf(events: seq<Event>): seq<nat> {
    if events == [] then []
    else
      var e := events[|events| - 1];
      GrantsOf(events[..|events| - 1]) + if e.Grant? then [e.ms] else []
  }

  /** The virtual times at which the loop entered its sleeps. */
  ghost function EntryTimes(states: seq<Clock>, events: seq<Event>, i: nat): seq<nat>
    requires i <= |events| < |states|
    decreases i
  {
    if i == 0 then []
    else EntryTimes(states, events, i - 1) + if events[i - 1].Enter? then [states[i - 1].consumed] else []
  }

  /** The grants and passes that the other results speak of are the calls of the two threads. */
  lemma {:induction false} RecordsAreCalls(d: nat, states: seq<Clock>, events: seq<Event>, i: nat)
    requires IsRun(d, states, events) && i < |states|
    ensures states[i].grants == GrantsOf(events[..i]) && states[i].passes == EntryTimes(states, events, i)
    decreases i
  {
    if i > 0 {
      RecordsAreCalls(d, states, events, i - 1);
      assert events[..i][..i - 1] == events[..i - 1];
    }
  }
}
