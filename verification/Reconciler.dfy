/**
 The module reconciler: agent/internal/modules/reconciler.go and the set operations of
 agent/internal/modules/local.go. Host operations are modelled by their effect on one
 module's slot and may be made to fail one by one. Mounts, drop-ins and the manifest
 are not part of this model.
 */
module Reconciler {
  import opened Prelude

  datatype Module = Module(id: string, version: string, config: string)

  /**
   Everything that concerns one module id: downloaded images, the portable
   attachment, the config a running unit was started with, config.toml, the
   reconciler's own two records, and how many host operations were made.
   */
  datatype Slot = Slot(files: set<string>, attached: Option<string>, running: Option<string>, configFile: string,
                       current: Option<string>, currentConfig: string, ops: nat)

  const EMPTY := Slot({}, None, None, "", None, "", 0)

  /** Which operations on one module fail in one pass. */
  datatype Faults = Faults(stop: bool, detach: bool, fetch: bool, attach: bool, retryStop: bool, retryDetach: bool,
                           retryAttach: bool, creds: bool, sync: bool, start: bool,
                           configSync: bool, configStop: bool, configStart: bool)

  const NO_FAULTS := Faults(false, false, false, false, false, false, false, false, false, false, false, false, false)

  // ----- Host operations

  datatype Done = Done(slot: Slot, ok: bool)

  function Count(s: Slot): Slot { s.(ops := s.ops + 1) }

  function Stop(s: Slot, fault: bool): Done {
    if fault then Done(Count(s), false) else Done(Count(s).(running := None), true)
  }

  /** A unit starts only from an attached image; starting a running unit changes nothing. */
  function Start(s: Slot, fault: bool): Done {
    if fault || s.attached.None? then Done(Count(s), false)
    else if s.running.Some? then Done(Count(s), true)
    else Done(Count(s).(running := Some(s.configFile)), true)
  }

  /** portablectl refuses to attach over an existing attachment. */
  function PortableAttach(s: Slot, version: string, fault: bool): Done {
    if fault || s.attached.Some? then Done(Count(s), false) else Done(Count(s).(attached := Some(version)), true)
  }

  /** portablectl detaches neither a running unit nor an image that is not attached. */
  function PortableDetach(s: Slot, fault: bool): Done {
    if fault || s.running.Some? || s.attached.None? then Done(Count(s), false)
    else Done(Count(s).(attached := None), true)
  }

  function SyncConfig(s: Slot, config: string, fault: bool): Done {
    if fault then Done(Count(s), false) else Done(Count(s).(configFile := config), true)
  }

  // ----- One module through one pass

  function Detach(s: Slot, f: Faults): Done {
    var stopped := Stop(s, f.stop);
    if !stopped.ok then stopped
    else
      var detached := PortableDetach(stopped.slot, f.detach);
      if !detached.ok then detached else Done(detached.slot.(current := None), true)
  }

  /** Attach, with one retry behind stop and detach. */
  function Attach(s: Slot, version: string, f: Faults): Done {
    var first := PortableAttach(s, version, f.attach);
    if first.ok then first
    else
      var stopped := Stop(first.slot, f.retryStop);
      var detached := PortableDetach(stopped.slot, f.retryDetach);
      if !detached.ok then detached else PortableAttach(detached.slot, version, f.retryAttach)
  }

  function ApplyConfigChange(s: Slot, config: string, f: Faults): Slot {
    if s.currentConfig == config then s
    else
      var synced := SyncConfig(s, config, f.configSync);
      if !synced.ok then synced.slot
      else
        var stopped := Stop(synced.slot, f.configStop);
        if !stopped.ok then stopped.slot
        else
          var started := Start(stopped.slot, f.configStart);
          if !started.ok then started.slot else started.slot.(currentConfig := config)
  }

  predicate Obsolete(s: Slot, want: Option<Module>) {
    s.current.Some? && (want.None? || s.current.value != want.value.version)
  }

  function DetachPhase(s: Slot, want: Option<Module>, f: Faults): Done {
    if Obsolete(s, want) then Detach(s, f) else Done(s, true)
  }

  function Fetch(s: Slot, m: Module, f: Faults): Done {
    if m.version in s.files then Done(s, true)
    else if f.fetch then Done(Count(s), false)
    else Done(Count(s).(files := s.files + {m.version}), true)
  }

  function Install(s: Slot, m: Module, f: Faults): Slot {
    var fetched := Fetch(s, m, f);
    if !fetched.ok then fetched.slot
    else
      var attached := Attach(fetched.slot, m.version, f);
      if !attached.ok then attached.slot
      else if f.creds then Count(attached.slot)
      else
        var synced := SyncConfig(Count(attached.slot), m.config, f.sync);
        if !synced.ok then synced.slot
        else
          var started := Start(synced.slot, f.start);
          if !started.ok then started.slot
          else started.slot.(current := Some(m.version), currentConfig := m.config)
  }

  function AttachPhase(s: Slot, want: Option<Module>, f: Faults): Slot {
    match want
    case None => s
    case Some(m) => if s.current == Some(m.version) then ApplyConfigChange(s, m.config, f) else Install(s, m, f)
  }

  function PassSlot(s: Slot, want: Option<Module>, f: Faults): Slot {
    AttachPhase(DetachPhase(s, want, f).slot, want, f)
  }

  // ----- The pass over all modules

  type Slots = map<string, Slot>
  type Wanted = map<string, Module>

  function At(m: Slots, id: string): Slot { if id in m then m[id] else EMPTY }

  function Want(w: Wanted, id: string): Option<Module> { if id in w then Some(w[id]) else None }

  function FaultsAt(f: map<string, Faults>, id: string): Faults { if id in f then f[id] else NO_FAULTS }

  /** Later entries of the desired set win. */
  function WantMap(modules: seq<Module>): Wanted {
    if modules == [] then map[]
    else var m := modules[|modules| - 1]; WantMap(modules[..|modules| - 1])[m.id := m]
  }

  class Reconciler {
    var slots: Slots

    /**
     One pass, the ids of both loops taken in any order. A failed detach ends the pass
     before anything is attached; otherwise every module goes through its own pass,
     whatever happens to the others.
     */
    method Reconcile(desired: seq<Module>, faults: map<string, Faults>) returns (ok: bool)
      modifies this
      ensures ok == forall id :: DetachPhase(At(old(slots), id), Want(WantMap(desired), id), FaultsAt(faults, id)).ok
      ensures ok ==> forall id ::
                At(slots, id) == PassSlot(At(old(slots), id), Want(WantMap(desired), id), FaultsAt(faults, id))
      ensures !ok ==> forall id :: At(slots, id) == At(old(slots), id)
                        || At(slots, id) == DetachPhase(At(old(slots), id), Want(WantMap(desired), id),
                            FaultsAt(faults, id)).slot
    {
      hide DetachPhase, AttachPhase, WantMap;
      var want := BuildWant(desired);
      var failed := DetachAll(want, faults);
      if failed.Some? { return false; }
      AttachAll(want, faults);
      ok := true;
    }

    method DetachAll(want: Wanted, faults: map<string, Faults>) returns (failed: Option<string>)
      modifies this
      ensures failed.None? ==> forall id ::
        var d := DetachPhase(At(old(slots), id), Want(want, id), FaultsAt(faults, id)); d.ok && At(slots, id) == d.slot
      ensures failed.Some? ==> !DetachPhase(At(old(slots), failed.value), Want(want, failed.value),
          FaultsAt(faults, failed.value)).ok
      ensures forall id :: At(slots, id) == At(old(slots), id)
                || At(slots, id) == DetachPhase(At(old(slots), id), Want(want, id), FaultsAt(faults, id)).slot
    {
      hide Detach;
      var todo := set id | id in slots && slots[id].current.Some?;
      while todo != {}
        invariant forall id | id in todo :: At(slots, id) == At(old(slots), id)
        invariant forall id | id !in todo ::
          var d := DetachPhase(At(old(slots), id), Want(want, id), FaultsAt(faults, id));
          d.ok && At(slots, id) == d.slot
        decreases |todo|
      {
        var id :| id in todo;
        var d := DetachPhase(At(slots, id), Want(want, id), FaultsAt(faults, id));
        if Obsolete(At(slots, id), Want(want, id)) {
          slots := slots[id := d.slot];
          if !d.ok { return Some(id); }
        }
        todo := todo - {id};
      }
      failed := None;
    }

    method AttachAll(want: Wanted, faults: map<string, Faults>)
      modifies this
      ensures forall id :: At(slots, id) == AttachPhase(At(old(slots), id), Want(want, id), FaultsAt(faults, id))
    {
      hide Install, ApplyConfigChange;
      var todo := want.Keys;
      while todo != {}
        invariant todo <= want.Keys
        invariant forall id | id in todo :: At(slots, id) == At(old(slots), id)
        invariant forall id | id !in todo ::
          At(slots, id) == AttachPhase(At(old(slots), id), Want(want, id), FaultsAt(faults, id))
        decreases |todo|
      {
        var id :| id in todo;
        slots := slots[id := AttachPhase(At(slots, id), Want(want, id), FaultsAt(faults, id))];
        todo := todo - {id};
      }
    }
  }

  method BuildWant(desired: seq<Module>) returns (want: Wanted)
    ensures want == WantMap(desired)
  {
    want := map[];
    for i := 0 to |desired|
      invariant want == WantMap(desired[..i])
    {
      assert desired[..i + 1][..i] == desired[..i];
      want := want[desired[i].id := desired[i]];
    }
    assert desired[..|desired|] == desired;
  }

  // ----- When a pass converges

  /** Units run from attached images only. */
  predicate Sound(s: Slot) { s.running.Some? ==> s.attached.Some? }

  /** Attached at the desired version, running with the desired config, and recorded as such. */
  predicate Reached(s: Slot, m: Module) {
    s.attached == Some(m.version) && s.running == Some(m.config)
    && s.current == Some(m.version) && s.currentConfig == m.config
  }

  predicate Gone(s: Slot) { s.attached.None? && s.running.None? && s.current.None? }

  /**
   What the records must be right about for a pass to bring the module to `m`: an
   attachment, if they claim one; its version, if they claim the desired one; and the
   running config, if they claim that nothing is left to do.
   */
  predicate Trusted(s: Slot, m: Module) {
    s.current.Some? ==>
      s.attached.Some? && (s.current == Some(m.version) ==>
        s.attached == Some(m.version) && (s.currentConfig == m.config ==> s.running == Some(m.config)))
  }

  /** A pass without failures reaches the desired state exactly from the trusted ones. */
  lemma ConvergesIff(s: Slot, m: Module)
    requires Sound(s)
    ensures Reached(PassSlot(s, Some(m), NO_FAULTS), m) && DetachPhase(s, Some(m), NO_FAULTS).ok <==> Trusted(s, m)
  {
  }

  /** It removes a module that is not desired exactly where the record and the attachment agree on there being one. */
  lemma UndesiredGoneIff(s: Slot)
    requires Sound(s)
    ensures Gone(PassSlot(s, None, NO_FAULTS)) && DetachPhase(s, None, NO_FAULTS).ok
      <==> (s.current.Some? <==> s.attached.Some?)
  {
  }

  /** Every record true: attached at the recorded version, running with the recorded config. */
  predicate Healthy(s: Slot) {
    Sound(s) && (s.current.Some? ==> s.attached == s.current && s.running == Some(s.currentConfig))
  }

  /** The two failures that leave a record behind that is no longer true: after a stop, no detach or no restart. */
  predicate Breaks(s: Slot, want: Option<Module>, f: Faults) {
    if Obsolete(s, want) then !f.stop && f.detach
    else
      && s.current.Some? && want.Some? && s.currentConfig != want.value.config
      && !f.configSync && !f.configStop && f.configStart
  }

  lemma DetachHealth(s: Slot, f: Faults)
    requires Healthy(s) && s.current.Some?
    ensures Detach(s, f).ok ==> Sound(Detach(s, f).slot) && Detach(s, f).slot.current.None?
    ensures Healthy(Detach(s, f).slot) <==> !(!f.stop && f.detach)
  {
  }

  /** A detach goes through exactly if the stop and the detach do and an image is attached; a failed stop ends it. */
  lemma DetachesIff(s: Slot, f: Faults)
    ensures Detach(s, f).ok <==> !f.stop && !f.detach && s.attached.Some?
    ensures f.stop ==> Detach(s, f).slot == s.(ops := s.ops + 1)
    ensures !f.stop ==> Detach(s, f).slot.running.None?
    ensures Detach(s, f).ok
        ==> Detach(s, f).slot == s.(attached := None, running := None, current := None, ops := s.ops + 2)
  {
  }

  lemma AttachHealth(s: Slot, version: string, f: Faults)
    requires Sound(s)
    ensures Sound(Attach(s, version, f).slot) && Attach(s, version, f).slot.current == s.current
    ensures Attach(s, version, f).ok
        ==> Attach(s, version, f).slot.attached == Some(version) && Attach(s, version, f).slot.running.None?
  {
  }

  lemma InstallHealth(s: Slot, m: Module, f: Faults)
    requires Sound(s) && s.current.None?
    ensures Healthy(Install(s, m, f))
  {
    hide Attach;
    AttachHealth(Fetch(s, m, f).slot, m.version, f);
  }

  lemma ConfigHealth(s: Slot, config: string, f: Faults)
    requires Healthy(s) && s.current.Some?
    ensures Healthy(ApplyConfigChange(s, config, f))
      <==> !(s.currentConfig != config && !f.configSync && !f.configStop && f.configStart)
  {
  }

  /** All other failures keep the records true, and so does a pass that ends after its detach phase. */
  lemma HealthyAfterIff(s: Slot, want: Option<Module>, f: Faults)
    requires Healthy(s)
    ensures DetachPhase(s, want, f).ok ==> (Healthy(PassSlot(s, want, f)) <==> !Breaks(s, want, f))
    ensures Healthy(DetachPhase(s, want, f).slot) <==> !(Obsolete(s, want) && Breaks(s, want, f))
  {
    hide Detach, Install, ApplyConfigChange;
    if Obsolete(s, want) { DetachHealth(s, f); }
    var d := DetachPhase(s, want, f);
    if d.ok && want.Some? {
      if d.slot.current.None? {
        InstallHealth(d.slot, want.value, f);
      } else {
        ConfigHealth(d.slot, want.value.config, f);
      }
    }
  }

  // ----- Over whole histories of passes

  /** One pass as the reconciler performs it. */
  ghost predicate PassStep(before: Slots, after: Slots, want: Wanted, faults: map<string, Faults>) {
    if forall id :: DetachPhase(At(before, id), Want(want, id), FaultsAt(faults, id)).ok
    then forall id :: At(after, id) == PassSlot(At(before, id), Want(want, id), FaultsAt(faults, id))
    else forall id :: At(after, id) == At(before, id)
                   || At(after, id) == DetachPhase(At(before, id), Want(want, id), FaultsAt(faults, id)).slot
  }

  ghost predicate AllHealthy(m: Slots) { forall id :: Healthy(At(m, id)) }

  /** What no failure can falsify: a recorded module is attached at the recorded version. */
  predicate Recorded(s: Slot) { Sound(s) && (s.current.Some? ==> s.attached == s.current) }

  ghost predicate AllRecorded(m: Slots) { forall id :: Recorded(At(m, id)) }

  /** The record says that nothing is left to do, and the unit does not run as desired. */
  predicate Stuck(s: Slot, m: Module) {
    s.current == Some(m.version) && s.currentConfig == m.config && s.running != Some(m.config)
  }

  /** Attached, and not recorded. */
  predicate Orphaned(s: Slot) { s.current.None? && s.attached.Some? }

  /** Between passes the agent may restart: its records are gone, attachments and units outlive it. */
  datatype Happening = Pass(want: Wanted, faults: map<string, Faults>) | AgentRestart

  function Restarted(s: Slot): Slot { s.(current := None, currentConfig := "") }

  ghost predicate Happens(before: Slots, after: Slots, h: Happening) {
    match h
    case Pass(want, faults) => PassStep(before, after, want, faults)
    case AgentRestart => forall id :: At(after, id) == Restarted(At(before, id))
  }

  /** Any passes, with any failures, and any restarts. */
  ghost predicate IsHistory(states: seq<Slots>, history: seq<Happening>) {
    && |states| == |history| + 1 && AllRecorded(states[0])
    && forall i | 0 <= i < |history| :: Happens(states[i], states[i + 1], history[i])
  }

  ghost predicate Unbroken(before: Slots, h: Happening) {
    h.Pass? ==> forall id | id in h.faults :: !Breaks(At(before, id), Want(h.want, id), h.faults[id])
  }

  /** From true records, and without either breaking failure. */
  ghost predicate Tolerated(states: seq<Slots>, history: seq<Happening>)
    requires |states| == |history| + 1
  {
    AllHealthy(states[0]) && forall i | 0 <= i < |history| :: Unbroken(states[i], history[i])
  }

  lemma RecordedAfter(s: Slot, want: Option<Module>, f: Faults)
    requires Recorded(s)
    ensures Recorded(DetachPhase(s, want, f).slot)
    ensures DetachPhase(s, want, f).ok ==> Recorded(PassSlot(s, want, f))
  {
    hide Install;
    var d := DetachPhase(s, want, f);
    if d.ok && want.Some? && d.slot.current.None? { InstallHealth(d.slot, want.value, f); }
  }

  lemma RecordedHappening(before: Slots, after: Slots, h: Happening)
    requires AllRecorded(before) && Happens(before, after, h)
    ensures AllRecorded(after)
  {
    hide PassSlot, DetachPhase;
    forall id ensures Recorded(At(after, id)) {
      assert Recorded(At(before, id));
      if h.Pass? { RecordedAfter(At(before, id), Want(h.want, id), FaultsAt(h.faults, id)); }
    }
  }

  lemma {:induction false} RecordedAlong(states: seq<Slots>, history: seq<Happening>, i: nat)
    requires IsHistory(states, history) && i < |states|
    ensures AllRecorded(states[i])
    decreases i
  {
    hide Happens, AllRecorded;
    if i > 0 {
      RecordedAlong(states, history, i - 1);
      RecordedHappening(states[i - 1], states[i], history[i - 1]);
    }
  }

  lemma HealthyHappening(before: Slots, after: Slots, h: Happening)
    requires AllHealthy(before) && Happens(before, after, h) && Unbroken(before, h)
    ensures AllHealthy(after)
  {
    hide PassSlot, DetachPhase;
    forall id ensures Healthy(At(after, id)) {
      assert Healthy(At(before, id));
      if h.Pass? {
        var w, f := Want(h.want, id), FaultsAt(h.faults, id);
        assert !Breaks(At(before, id), w, f);
        HealthyAfterIff(At(before, id), w, f);
      }
    }
  }

  lemma {:induction false} HealthyAlong(states: seq<Slots>, history: seq<Happening>, i: nat)
    requires IsHistory(states, history) && Tolerated(states, history) && i < |states|
    ensures AllHealthy(states[i])
    decreases i
  {
    hide Happens, AllHealthy, Unbroken;
    if i > 0 {
      HealthyAlong(states, history, i - 1);
      HealthyHappening(states[i - 1], states[i], history[i - 1]);
    }
  }

  /** The attached image is one that was downloaded. */
  predicate Downloaded(s: Slot) { s.attached.Some? ==> s.attached.value in s.files }

  lemma AttachDownloaded(s: Slot, version: string, f: Faults)
    requires Downloaded(s) && version in s.files
    ensures Downloaded(Attach(s, version, f).slot) && Attach(s, version, f).slot.files == s.files
  {
  }

  lemma InstallDownloaded(s: Slot, m: Module, f: Faults)
    requires Downloaded(s)
    ensures Downloaded(Install(s, m, f)) && s.files <= Install(s, m, f).files
  {
    hide Attach;
    var fetched := Fetch(s, m, f);
    if fetched.ok { AttachDownloaded(fetched.slot, m.version, f); }
  }

  lemma ConfigDownloaded(s: Slot, config: string, f: Faults)
    ensures var t := ApplyConfigChange(s, config, f); t.attached == s.attached && t.files == s.files
  {
  }

  lemma DownloadedAfter(s: Slot, want: Option<Module>, f: Faults)
    requires Downloaded(s)
    ensures Downloaded(DetachPhase(s, want, f).slot) && s.files <= DetachPhase(s, want, f).slot.files
    ensures Downloaded(PassSlot(s, want, f)) && s.files <= PassSlot(s, want, f).files
  {
    hide Install, ApplyConfigChange;
    var d := DetachPhase(s, want, f).slot;
    if want.Some? {
      InstallDownloaded(d, want.value, f);
      ConfigDownloaded(d, want.value.config, f);
    }
  }

  lemma DownloadedHappening(before: Slots, after: Slots, h: Happening, id: string)
    requires Happens(before, after, h) && Downloaded(At(before, id))
    ensures Downloaded(At(after, id)) && At(before, id).files <= At(after, id).files
  {
    hide PassSlot, DetachPhase, Downloaded;
    match h
    case AgentRestart => assert Downloaded(Restarted(At(before, id))) by { RestartDownloaded(At(before, id)); }
    case Pass(want, faults) => DownloadedAfter(At(before, id), Want(want, id), FaultsAt(faults, id));
  }

  lemma RestartDownloaded(s: Slot)
    requires Downloaded(s)
    ensures Downloaded(Restarted(s)) && Restarted(s).files == s.files
  {
  }

  /** No image is attached that was not fetched first, through all passes, failures and restarts. */
  lemma {:induction false} DownloadedAlong(states: seq<Slots>, history: seq<Happening>, i: nat, id: string)
    requires IsHistory(states, history) && i < |states| && Downloaded(At(states[0], id))
    ensures Downloaded(At(states[i], id)) && At(states[0], id).files <= At(states[i], id).files
    decreases i
  {
    hide Happens, Downloaded;
    if i > 0 {
      DownloadedAlong(states, history, i - 1, id);
      DownloadedHappening(states[i - 1], states[i], history[i - 1], id);
    }
  }

  /** One module through a pass without failures. */
  lemma CleanPass(s: Slot, want: Option<Module>)
    requires Recorded(s)
    ensures DetachPhase(s, want, NO_FAULTS).ok
    ensures want.Some? ==> (Reached(PassSlot(s, want, NO_FAULTS), want.value) <==> !Stuck(s, want.value))
    ensures want.Some? && Stuck(s, want.value) ==> PassSlot(s, want, NO_FAULTS) == s
    ensures want.None? ==> (Gone(PassSlot(s, want, NO_FAULTS)) <==> !Orphaned(s))
    ensures want.None? && s.current.None? ==> PassSlot(s, want, NO_FAULTS) == s
  {
    if want.Some? { ConvergesIff(s, want.value); } else { UndesiredGoneIff(s); }
  }

  /** The record asks for nothing. */
  predicate Settled(s: Slot, want: Option<Module>) {
    match want
    case None => s.current.None?
    case Some(m) => Reached(s, m) || Stuck(s, m)
  }

  /** A module whose record asks for nothing is left alone, whatever might fail. */
  lemma SettledIsQuiet(s: Slot, want: Option<Module>, f: Faults)
    requires Settled(s, want)
    ensures PassSlot(s, want, f) == s && DetachPhase(s, want, f) == Done(s, true)
  {
  }

  predicate SameRecord(s: Slot, want: Option<Module>) {
    match want
    case None => s.current.None?
    case Some(m) => s.current == Some(m.version) && s.currentConfig == m.config
  }

  lemma AttachWorks(s: Slot, version: string, f: Faults)
    ensures Attach(s, version, f).slot.ops > s.ops
  {
  }

  lemma InstallWorks(s: Slot, m: Module, f: Faults)
    ensures Install(s, m, f).ops > s.ops
  {
    hide Attach;
    var fetched := Fetch(s, m, f);
    AttachWorks(fetched.slot, m.version, f);
    StartWorks(SyncConfig(Count(Attach(fetched.slot, m.version, f).slot), m.config, f.sync).slot, f.start);
    hide Start;
  }

  lemma StartWorks(s: Slot, fault: bool)
    ensures Start(s, fault).slot.ops == s.ops + 1
  {
  }

  lemma ConfigWorks(s: Slot, config: string, f: Faults)
    ensures ApplyConfigChange(s, config, f).ops > s.ops <==> s.currentConfig != config
    ensures ApplyConfigChange(s, config, f).ops >= s.ops
  {
  }

  /** A pass touches the host exactly if the record differs from what is desired, whatever fails. */
  lemma WorksIff(s: Slot, want: Option<Module>, f: Faults)
    ensures PassSlot(s, want, f).ops > s.ops <==> !SameRecord(s, want)
    ensures SameRecord(s, want) ==> PassSlot(s, want, f) == s
  {
    hide Install, ApplyConfigChange;
    var d := DetachPhase(s, want, f).slot;
    if want.Some? {
      InstallWorks(d, want.value, f);
      ConfigWorks(d, want.value.config, f);
      if SameRecord(s, want) { ConfigIdle(s, want.value.config, f); }
    }
  }

  lemma ConfigIdle(s: Slot, config: string, f: Faults)
    requires s.currentConfig == config
    ensures ApplyConfigChange(s, config, f) == s
  {
  }

  /**
   Convergence, after any passes with any failures and any restarts: a pass without
   failures brings a desired module up as desired exactly if it is not stuck, removes
   one that is no longer desired exactly if it is not orphaned, and leaves the stuck and the
   orphaned as they are; a further pass, whatever might fail in it, does nothing at
   all. Without breaking failures no module is stuck.
   */
  lemma Converges(states: seq<Slots>, history: seq<Happening>, want: Wanted, next: Slots, last: Slots,
                  faults: map<string, Faults>)
    requires IsHistory(states, history)
    requires PassStep(states[|history|], next, want, map[]) && PassStep(next, last, want, faults)
    ensures forall id | id in want :: Reached(At(next, id), want[id]) <==> !Stuck(At(states[|history|], id), want[id])
    ensures Tolerated(states, history) ==> forall id | id in want :: Reached(At(next, id), want[id])
    ensures forall id | id !in want :: Gone(At(next, id)) <==> !Orphaned(At(states[|history|], id))
    ensures forall id | (if id in want then Stuck(At(states[|history|], id), want[id])
                         else Orphaned(At(states[|history|], id)))
              :: At(next, id) == At(states[|history|], id)
    ensures forall id :: At(last, id) == At(next, id)
  {
    hide PassSlot, DetachPhase, PassStep, AllRecorded, AllHealthy, Settled;
    var s := states[|history|];
    RecordedAlong(states, history, |history|);
    CleanStep(s, next, want);
    forall id { CleanModule(s, next, want, id); }
    QuietStep(next, last, want, faults);
    if Tolerated(states, history) {
      HealthyAlong(states, history, |history|);
      forall id | id in want ensures !Stuck(At(s, id), want[id]) { HealthyNotStuck(s, id, want[id]); }
    }
  }

  lemma CleanStep(s: Slots, next: Slots, want: Wanted)
    requires AllRecorded(s) && PassStep(s, next, want, map[])
    ensures forall id :: At(next, id) == PassSlot(At(s, id), Want(want, id), NO_FAULTS)
  {
    hide PassSlot, DetachPhase;
    forall id ensures DetachPhase(At(s, id), Want(want, id), FaultsAt(map[], id)).ok {
      assert Recorded(At(s, id));
      CleanPass(At(s, id), Want(want, id));
    }
  }

  lemma CleanModule(s: Slots, next: Slots, want: Wanted, id: string)
    requires AllRecorded(s) && At(next, id) == PassSlot(At(s, id), Want(want, id), NO_FAULTS)
    ensures id in want ==> (Reached(At(next, id), want[id]) <==> !Stuck(At(s, id), want[id]))
    ensures id !in want ==> (Gone(At(next, id)) <==> !Orphaned(At(s, id)))
    ensures (if id in want then Stuck(At(s, id), want[id]) else Orphaned(At(s, id))) ==> At(next, id) == At(s, id)
    ensures Settled(At(next, id), Want(want, id))
  {
    hide PassSlot, DetachPhase;
    assert Recorded(At(s, id));
    CleanPass(At(s, id), Want(want, id));
  }

  lemma QuietStep(next: Slots, last: Slots, want: Wanted, faults: map<string, Faults>)
    requires PassStep(next, last, want, faults) && forall id :: Settled(At(next, id), Want(want, id))
    ensures forall id :: At(last, id) == At(next, id)
  {
    hide PassSlot, DetachPhase, Settled, At, Want, FaultsAt;
    forall id
      ensures DetachPhase(At(next, id), Want(want, id), FaultsAt(faults, id)) == Done(At(next, id), true)
      ensures PassSlot(At(next, id), Want(want, id), FaultsAt(faults, id)) == At(next, id)
    {
      SettledIsQuiet(At(next, id), Want(want, id), FaultsAt(faults, id));
    }
  }

  lemma HealthyNotStuck(s: Slots, id: string, m: Module)
    requires AllHealthy(s)
    ensures !Stuck(At(s, id), m)
  {
    assert Healthy(At(s, id));
  }

  lemma AttachFresh(s: Slot, version: string, f: Faults)
    requires s.attached.None? && s.running.None?
    ensures Attach(s, version, f).ok <==> !f.attach
    ensures var t := Attach(s, version, f).slot;
      t.attached == (if f.attach then None else Some(version)) && t.running.None? && t.current == s.current
  {
  }

  lemma InstallOrphans(s: Slot, m: Module, f: Faults)
    requires s.attached.None? && s.running.None? && s.current.None?
    ensures Orphaned(Install(s, m, f))
        <==> (m.version in s.files || !f.fetch) && !f.attach && (f.creds || f.sync || f.start)
  {
    hide Attach;
    AttachFresh(Fetch(s, m, f).slot, m.version, f);
  }

  lemma ConfigKeepsRecord(s: Slot, config: string, f: Faults)
    ensures ApplyConfigChange(s, config, f).current == s.current
  {
  }

  /**
   What orphans a module in a pass: an installation that attaches the image and then
   fails at the credentials, the config or the start.
   */
  lemma OrphanedAfterIff(s: Slot, want: Option<Module>, f: Faults)
    requires Recorded(s) && !Orphaned(s) && DetachPhase(s, want, f).ok
    ensures Orphaned(PassSlot(s, want, f)) <==>
      && want.Some? && s.current != Some(want.value.version)
      && (want.value.version in s.files || !f.fetch) && !f.attach && (f.creds || f.sync || f.start)
  {
    hide Install, ApplyConfigChange;
    var d := DetachPhase(s, want, f).slot;
    assert d.files == s.files && (d.current.None? ==> d.attached.None? && d.running.None?);
    if want.Some? {
      if d.current.None? { InstallOrphans(d, want.value, f); } else { ConfigKeepsRecord(d, want.value.config, f); }
    }
  }

  /** A restart orphans exactly the attached modules. */
  lemma RestartOrphans(s: Slot)
    ensures Orphaned(Restarted(s)) <==> s.attached.Some?
  {
  }

  lemma OrphanStep(before: Slots, after: Slots, h: Happening, id: string)
    requires Happens(before, after, h) && Orphaned(At(before, id)) && (h.Pass? ==> id !in h.want)
    ensures Orphaned(At(after, id))
    ensures At(after, id).attached == At(before, id).attached && At(after, id).running == At(before, id).running
  {
    hide PassSlot, DetachPhase;
    if h.Pass? { SettledIsQuiet(At(before, id), None, FaultsAt(h.faults, id)); }
  }

  /** An orphan that is not desired stays attached, running if it ran, through every pass and restart. */
  lemma {:induction false} OrphanStays(states: seq<Slots>, history: seq<Happening>, i: nat, j: nat, id: string)
    requires IsHistory(states, history) && i <= j < |states| && Orphaned(At(states[i], id))
    requires forall k | i <= k < j && history[k].Pass? :: id !in history[k].want
    ensures Orphaned(At(states[j], id))
    ensures At(states[j], id).attached == At(states[i], id).attached
        && At(states[j], id).running == At(states[i], id).running
    decreases j
  {
    hide Happens;
    if i < j {
      OrphanStays(states, history, i, j - 1, id);
      OrphanStep(states[j - 1], states[j], history[j - 1], id);
    }
  }

  /** So a module that was up when the agent restarted, and is then no longer desired, runs on. */
  lemma RestartLeavesRunning(states: seq<Slots>, history: seq<Happening>, i: nat, j: nat, id: string, m: Module)
    requires IsHistory(states, history) && i < j < |states| && history[i] == AgentRestart
        && Reached(At(states[i], id), m)
    requires forall k | i < k < j && history[k].Pass? :: id !in history[k].want
    ensures At(states[j], id).attached == Some(m.version) && At(states[j], id).running == Some(m.config)
  {
    assert Happens(states[i], states[i + 1], history[i]);
    RestartOrphans(At(states[i], id));
    OrphanStays(states, history, i + 1, j, id);
  }

  /**
   Why the breaking failures matter: a restart that fails after an edited config was
   written leaves the module stopped, and if the edit is then taken back, no later
   pass ever starts it again.
   */
  lemma RevertedEditStaysStopped(s: Slot, m: Module, config: string, f: Faults)
    requires Healthy(s) && Reached(s, m) && config != m.config
    requires !f.configSync && !f.configStop && f.configStart
    ensures var broken := PassSlot(s, Some(m.(config := config)), f);
      broken.running.None? && forall g :: PassSlot(broken, Some(m), g) == broken
  {
  }

  /** The same over passes as the reconciler performs them, the failure being the only one. */
  lemma RevertedEditHistory(first: Slots, broken: Slots, last: Slots, id: string, m: Module, config: string,
                            f: Faults, faults: map<string, Faults>)
    requires AllHealthy(first) && Reached(At(first, id), m) && config != m.config
    requires !f.configSync && !f.configStop && f.configStart
    requires PassStep(first, broken, map[id := m.(config := config)], map[id := f])
    requires PassStep(broken, last, map[id := m], faults)
    ensures At(broken, id).running.None? && At(last, id) == At(broken, id)
  {
    hide PassSlot, DetachPhase, PassStep, Reached, AllHealthy;
    var edited := m.(config := config);
    AloneDetaches(first, id, m, edited, f);
    assert At(broken, id) == PassSlot(At(first, id), Some(edited), f) by { PassOf(first, broken, id, edited, f); }
    HealthyAt(first, id);
    RevertedEditStaysStopped(At(first, id), m, config, f);
    RestartFailed(At(first, id), m, config, f);
    var g := FaultsAt(faults, id);
    NotObsolete(At(broken, id), m, g);
    PassKeeps(broken, last, id, m, faults);
  }

  lemma HealthyAt(m: Slots, id: string)
    requires AllHealthy(m)
    ensures Healthy(At(m, id))
  {
  }

  lemma AloneDetaches(s: Slots, id: string, m: Module, edited: Module, f: Faults)
    requires AllHealthy(s) && Reached(At(s, id), m) && edited.version == m.version
    ensures forall other :: DetachPhase(At(s, other), Want(map[id := edited], other), FaultsAt(map[id := f], other)).ok
  {
    hide DetachPhase, AllHealthy, At, Want, FaultsAt, Reached;
    forall other { OneDetaches(s, id, m, edited, f, other); }
  }

  lemma OneDetaches(s: Slots, id: string, m: Module, edited: Module, f: Faults, other: string)
    requires AllHealthy(s) && Reached(At(s, id), m) && edited.version == m.version
    ensures DetachPhase(At(s, other), Want(map[id := edited], other), FaultsAt(map[id := f], other)).ok
  {
    hide PassSlot, DetachPhase, AllHealthy;
    HealthyAt(s, other);
    if other == id { NotObsolete(At(s, id), edited, f); } else { CleanPass(At(s, other), None); }
  }

  lemma PassOf(s: Slots, next: Slots, id: string, m: Module, f: Faults)
    requires PassStep(s, next, map[id := m], map[id := f])
    requires forall other :: DetachPhase(At(s, other), Want(map[id := m], other), FaultsAt(map[id := f], other)).ok
    ensures At(next, id) == PassSlot(At(s, id), Some(m), f)
  {
    hide PassSlot, DetachPhase;
  }

  lemma PassKeeps(s: Slots, next: Slots, id: string, m: Module, faults: map<string, Faults>)
    requires PassStep(s, next, map[id := m], faults)
    requires DetachPhase(At(s, id), Some(m), FaultsAt(faults, id)) == Done(At(s, id), true)
    requires PassSlot(At(s, id), Some(m), FaultsAt(faults, id)) == At(s, id)
    ensures At(next, id) == At(s, id)
  {
    hide PassSlot, DetachPhase;
  }

  lemma NotObsolete(s: Slot, m: Module, f: Faults)
    requires s.current == Some(m.version)
    ensures DetachPhase(s, Some(m), f) == Done(s, true)
  {
  }

  lemma RestartFailed(s: Slot, m: Module, config: string, f: Faults)
    requires Reached(s, m)
    ensures PassSlot(s, Some(m.(config := config)), f).current == Some(m.version)
  {
  }

  // ----- Desired sets

  function MergeDesired(proxy: seq<Module>, local: seq<Module>): seq<Module> {
    local + Unseen(proxy, set m | m in local :: m.id)
  }

  function Unseen(proxy: seq<Module>, seen: set<string>): seq<Module> {
    if proxy == [] then []
    else
      var m := proxy[|proxy| - 1];
      Unseen(proxy[..|proxy| - 1], seen) + if m.id in seen then [] else [m]
  }

  method ComputeMerge(proxy: seq<Module>, local: seq<Module>) returns (out: seq<Module>)
    ensures out == MergeDesired(proxy, local)
  {
    out := [];
    var seen: set<string> := {};
    for i := 0 to |local|
      invariant out == local[..i] && seen == set m | m in local[..i] :: m.id
    {
      assert local[..i + 1] == local[..i] + [local[i]];
      out := out + [local[i]];
      seen := seen + {local[i].id};
    }
    assert local[..|local|] == local;
    for i := 0 to |proxy|
      invariant out == local + Unseen(proxy[..i], seen)
    {
      assert proxy[..i + 1][..i] == proxy[..i];
      if proxy[i].id !in seen { out := out + [proxy[i]]; }
    }
    assert proxy[..|proxy|] == proxy;
  }

  lemma {:induction false} WantMapAppend(a: seq<Module>, b: seq<Module>)
    ensures WantMap(a + b) == WantMap(a) + WantMap(b)
    decreases |b|
  {
    if b == [] {
      assert a + b == a;
    } else {
      assert (a + b)[..|a + b| - 1] == a + b[..|b| - 1];
      WantMapAppend(a, b[..|b| - 1]);
    }
  }

  lemma {:induction false} WantMapUnseen(proxy: seq<Module>, seen: set<string>)
    ensures WantMap(Unseen(proxy, seen)) == WantMap(proxy) - seen
    decreases |proxy|
  {
    if proxy != [] {
      var m := proxy[|proxy| - 1];
      var init := proxy[..|proxy| - 1];
      WantMapUnseen(init, seen);
      hide Unseen;
      if m.id in seen {
        assert Unseen(proxy, seen) == Unseen(init, seen);
      } else {
        var u := Unseen(init, seen) + [m];
        assert u[..|u| - 1] == Unseen(init, seen);
        assert Unseen(proxy, seen) == u;
      }
    }
  }

  lemma {:induction false} WantMapKeys(s: seq<Module>)
    ensures WantMap(s).Keys == set m | m in s :: m.id
    decreases |s|
  {
    if s != [] {
      WantMapKeys(s[..|s| - 1]);
      assert s == s[..|s| - 1] + [s[|s| - 1]];
    }
  }

  /** The last entry of an id is the one desired. */
  lemma {:induction false} LastEntryWanted(s: seq<Module>, i: nat)
    requires i < |s| && forall j | i < j < |s| :: s[j].id != s[i].id
    ensures s[i].id in WantMap(s) && WantMap(s)[s[i].id] == s[i]
    decreases |s|
  {
    if i < |s| - 1 { LastEntryWanted(s[..|s| - 1], i); }
  }

  /** Merged sets mean to the reconciler: the proxy's modules, overridden by the local ones. */
  lemma MergeMeaning(proxy: seq<Module>, local: seq<Module>)
    ensures WantMap(MergeDesired(proxy, local)) == WantMap(proxy) + WantMap(local)
  {
    var seen := set m | m in local :: m.id;
    WantMapAppend(local, Unseen(proxy, seen));
    WantMapUnseen(proxy, seen);
    WantMapKeys(local);
    assert WantMap(local) + (WantMap(proxy) - seen) == WantMap(proxy) + WantMap(local);
  }
}
