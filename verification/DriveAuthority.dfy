/**
 When the wheels do move: the exact conditions, on the events of a run, under which the
 drive is armed and a loop pass commands a motion (core/src/main.cpp).
 */
module DriveAuthority {
  import opened Prelude
  import opened DriveKinematics
  import opened Actuation
  import opened ActuationInvariant
  import opened ActuationRuns

  // ----- Arming

  lemma StepArmed(cfg: Config, s: Core, e: Event)
    requires ValidConfig(cfg) && Inv(cfg, s) && Enabled(cfg, s, e)
    ensures var s' := Step(cfg, s, e);
      s'.armed <==> if s'.mode != s.mode then cfg.hasDrive && Actuating(s'.mode) else s.armed && !e.Boot?
  {
    if FromModule(e) {
      ModuleFrame(cfg, s, e);
    } else if e.Pass? {
      PassArmed(cfg, s, e);
    } else if e.Boot? {
      BootMode(cfg, s, e.t);
      BootDisarms(cfg, s, e.t);
    } else {
      hide Transition, BootStep, PassStep, Wired, Halted, AllStopped;
      TransitionToSelf(cfg, s);
      forall to | to != s.mode { TransitionArms(cfg, s, to); }
      forall to | to != s.mode { TransitionFrame(cfg, s, to); }
    }
  }

  lemma BootDisarms(cfg: Config, s: Core, t: int)
    requires Inv(cfg, s)
    ensures !BootStep(cfg, s, t).armed
  {
    hide WriteWheels, WithTorques, EnsureModes, Discovered, Aux, Wired, Halted, AllStopped;
  }

  lemma PassArmed(cfg: Config, s: Core, e: Event)
    requires ValidConfig(cfg) && Inv(cfg, s) && e.Pass?
    ensures var s' := PassStep(cfg, s, e);
      s'.armed <==> if s'.mode != s.mode then cfg.hasDrive && Actuating(s'.mode) else s.armed
  {
    hide Transition, WriteWheels, BodyToWheels, Wired, Halted, AllStopped;
    var w := s.(wd := s.wd.(alive := false), heartbeatOk := false);
    if s.mode != Safe { TransitionArms(cfg, w, Safe); }
    TransitionFrame(cfg, w, Safe);
  }

  /** Event `e` changed the mode to the one that still holds, and the core has not booted since. */
  ghost predicate EnteredAt(r: Run, e: nat, i: nat)
    requires i < |r.states| && |r.states| == |r.events| + 1
  {
    && e < i && r.states[e].mode != r.states[e + 1].mode
    && (forall k | e < k <= i :: r.states[k].mode == r.states[i].mode)
    && (forall k | e < k < i :: !r.events[k].Boot?)
  }

  ghost predicate Entered(r: Run, i: nat)
    requires i < |r.states| && |r.states| == |r.events| + 1
  {
    exists e: nat :: e < i && EnteredAt(r, e, i)
  }

  lemma EnteredStep(r: Run, i: nat)
    requires 0 < i < |r.states| && |r.states| == |r.events| + 1
    ensures Entered(r, i) <==>
      r.states[i].mode != r.states[i - 1].mode || (Entered(r, i - 1) && !r.events[i - 1].Boot?)
  {
    if r.states[i].mode != r.states[i - 1].mode {
      assert EnteredAt(r, i - 1, i);
    } else {
      if Entered(r, i) {
        var e: nat :| e < i && EnteredAt(r, e, i);
        assert EnteredAt(r, e, i - 1);
      }
      if Entered(r, i - 1) && !r.events[i - 1].Boot? {
        var e: nat :| e < i - 1 && EnteredAt(r, e, i - 1);
        assert EnteredAt(r, e, i);
      }
    }
  }

  /** In every run the drive is armed exactly in an actuating mode that was entered after the last boot. */
  lemma {:induction false} ArmedIff(cfg: Config, r: Run, i: nat)
    requires IsRun(cfg, r) && i < |r.states|
    ensures r.states[i].armed <==> cfg.hasDrive && Actuating(r.states[i].mode) && Entered(r, i)
    decreases i
  {
    if i > 0 {
      ArmedIff(cfg, r, i - 1);
      InvAlong(cfg, r, i - 1);
      hide Step, Enabled, Inv;
      StepArmed(cfg, r.states[i - 1], r.events[i - 1]);
      EnteredStep(r, i);
    }
  }

  // ----- The command in force

  /**
   Command `c` was accepted, no later one was, the mode has not changed since, the core
   has not booted since, and no pass since found the command older than 300 ms.
   */
  ghost predicate InForce(cfg: Config, r: Run, c: nat, i: nat)
    requires i < |r.states| && |r.states| == |r.events| + 1
  {
    && c < i && Accepted(cfg, r.states[c], r.events[c])
    && (forall k | c <= k <= i :: r.states[k].mode == r.states[c].mode)
    && (forall k | c < k < i :: Undisturbed(cfg, r.states[k], r.events[k], r.events[c].t))
  }

  ghost predicate Undisturbed(cfg: Config, s: Core, e: Event, t: int) {
    !Accepted(cfg, s, e) && !e.Boot? && (e.Pass? ==> e.tDs - t <= 300_000_000)
  }

  lemma StepKeepsTarget(cfg: Config, s: Core, e: Event)
    requires ValidConfig(cfg) && Inv(cfg, s) && Actuating(s.mode) && s.ds.alive
    requires Undisturbed(cfg, s, e, s.ds.lastKick) && Step(cfg, s, e).mode == s.mode
    ensures Step(cfg, s, e).target == s.target && Step(cfg, s, e).ds == s.ds
  {
    if FromModule(e) {
      ModuleFrame(cfg, s, e);
    } else {
      hide Transition, BootStep, WriteWheels, BodyToWheels, Wired, Halted, AllStopped;
      TransitionToSelf(cfg, s);
      forall to { TransitionFrame(cfg, s, to); }
      if e.Pass? { TransitionFrame(cfg, s.(wd := s.wd.(alive := false), heartbeatOk := false), Safe); }
    }
  }

  lemma AcceptedSets(cfg: Config, s: Core, e: Event)
    requires ValidConfig(cfg) && Accepted(cfg, s, e)
    ensures Step(cfg, s, e).target == e.cmd.value && Step(cfg, s, e).ds == Timer(e.t, true)
  {
  }

  lemma {:induction false} TargetKept(cfg: Config, r: Run, c: nat, i: nat)
    requires IsRun(cfg, r) && i < |r.states| && InForce(cfg, r, c, i)
    ensures r.states[i].target == r.events[c].cmd.value && r.states[i].ds == Timer(r.events[c].t, true)
    decreases i
  {
    hide Step, Enabled, Inv, Undisturbed;
    if i == c + 1 {
      AcceptedSets(cfg, r.states[c], r.events[c]);
    } else {
      TargetKept(cfg, r, c, i - 1);
      InvAlong(cfg, r, i - 1);
      assert r.states[i].mode == r.states[c].mode && r.states[i - 1].mode == r.states[c].mode;
      StepKeepsTarget(cfg, r.states[i - 1], r.events[i - 1]);
    }
  }

  lemma TargetUndisturbed(cfg: Config, s: Core, e: Event)
    requires ValidConfig(cfg) && Inv(cfg, s) && Step(cfg, s, e).target != STOP && !Accepted(cfg, s, e)
    ensures Undisturbed(cfg, s, e, s.ds.lastKick)
  {
    if e.Boot? {
      BootStops(cfg, s, e.t);
    }
    if e.Pass? {
      hide Transition, WriteWheels, BodyToWheels, Wired, Halted, AllStopped;
      PassTarget(cfg, s, e);
    }
  }

  lemma {:induction false} CommandInForce(cfg: Config, r: Run, i: nat) returns (c: nat)
    requires IsRun(cfg, r) && i < |r.states| && r.states[i].target != STOP
    ensures InForce(cfg, r, c, i) && r.events[c].cmd == Some(r.states[i].target)
    ensures r.states[i].ds == Timer(r.events[c].t, true)
    decreases i
  {
    hide Step, Enabled, Inv, Undisturbed;
    assert i > 0;
    InvAlong(cfg, r, i - 1);
    var s, e := r.states[i - 1], r.events[i - 1];
    StepTarget(cfg, s, e);
    if Accepted(cfg, s, e) {
      c := i - 1;
    } else {
      TargetUndisturbed(cfg, s, e);
      c := CommandInForce(cfg, r, i - 1);
    }
  }

  // ----- When a pass commands a motion

  ghost predicate LatestHeartbeat(r: Run, h: nat, i: nat)
    requires i <= |r.events|
  {
    h < i && r.events[h].Heartbeat? && forall k | h < k < i :: !r.events[k].Heartbeat?
  }

  ghost predicate HeartbeatFresh(r: Run, i: nat)
    requires i < |r.events| && r.events[i].Pass?
  {
    exists h: nat :: h < i && LatestHeartbeat(r, h, i) && r.events[i].tWd - r.events[h].t <= 500_000_000
  }

  ghost predicate CommandFresh(cfg: Config, r: Run, i: nat, b: BodyVel)
    requires i < |r.events| && r.events[i].Pass? && |r.states| == |r.events| + 1
  {
    exists c: nat :: c < i && InForce(cfg, r, c, i) && r.events[c].cmd == Some(b)
                     && r.events[i].tDs - r.events[c].t <= 300_000_000
  }

  /**
   A pass commands a motion exactly if its tick is due, the drive is armed, the latest
   heartbeat is at most 500 ms old, and that motion is the command in force, at most 300 ms old.
   */
  lemma MotionIff(cfg: Config, r: Run, i: nat, b: BodyVel)
    requires IsRun(cfg, r) && i < |r.events| && r.events[i].Pass? && b != STOP
    ensures Commanded(cfg, r.states[i], r.events[i]) == Some(b) <==>
      && r.events[i].now >= r.states[i].next50 && r.states[i].armed
      && HeartbeatFresh(r, i) && CommandFresh(cfg, r, i, b)
  {
    if Commanded(cfg, r.states[i], r.events[i]) == Some(b) {
      MotionNeeds(cfg, r, i, b);
    }
    if && r.events[i].now >= r.states[i].next50 && r.states[i].armed
       && HeartbeatFresh(r, i) && CommandFresh(cfg, r, i, b) {
      MotionFollows(cfg, r, i, b);
    }
  }

  lemma MotionNeeds(cfg: Config, r: Run, i: nat, b: BodyVel)
    requires IsRun(cfg, r) && i < |r.events| && r.events[i].Pass? && b != STOP
    requires Commanded(cfg, r.states[i], r.events[i]) == Some(b)
    ensures r.events[i].now >= r.states[i].next50 && r.states[i].armed
    ensures HeartbeatFresh(r, i) && CommandFresh(cfg, r, i, b)
  {
    InvAlong(cfg, r, i);
    PassKeepsTarget(cfg, r.states[i], r.events[i]);
    hide Inv, Enabled, Checked, InForce;
    var h := LastHeartbeat(cfg, r, i);
    assert LatestHeartbeat(r, h, i);
    var c := CommandInForce(cfg, r, i);
    InForceBefore(cfg, r, c, i);
  }

  lemma InForceBefore(cfg: Config, r: Run, c: nat, i: nat)
    requires i < |r.states| && |r.states| == |r.events| + 1 && InForce(cfg, r, c, i)
    ensures c < i
  {
  }

  lemma MotionFollows(cfg: Config, r: Run, i: nat, b: BodyVel)
    requires IsRun(cfg, r) && i < |r.events| && r.events[i].Pass? && b != STOP
    requires r.events[i].now >= r.states[i].next50 && r.states[i].armed
    requires HeartbeatFresh(r, i) && CommandFresh(cfg, r, i, b)
    ensures Commanded(cfg, r.states[i], r.events[i]) == Some(b)
  {
    var s, e := r.states[i], r.events[i];
    InvAlong(cfg, r, i);
    var c: nat :| c < i && InForce(cfg, r, c, i) && r.events[c].cmd == Some(b) && e.tDs - r.events[c].t <= 300_000_000;
    TargetKept(cfg, r, c, i);
    var h: nat :| h < i && LatestHeartbeat(r, h, i) && e.tWd - r.events[h].t <= 500_000_000;
    var h' := LastHeartbeat(cfg, r, i);
    assert h == h';
    hide Enabled, Step, InForce, LatestHeartbeat, Wired, Halted, AllStopped, Transition;
    assert !Expired(s.wd, e.tWd, HEARTBEAT_TIMEOUT) && !Expired(s.ds, e.tDs, DRIVE_TIMEOUT);
  }
}
