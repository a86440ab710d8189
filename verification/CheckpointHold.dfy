/**
 The chain of provider hold receipts that a checkpoint or a manual failover must accept, one phase
 after another: `check_hold`, `provider_progress`, `provider_observation` and `provider_closure`.
 */
module CheckpointHold {
  import opened Prelude

  type Id = nat

  datatype Action = Checkpoint | ManualFailover

  /** The phases that carry a hold receipt. */
  datatype Phase = Qualify | Stop | DrainWriters | ResumeOwnedHold | StrictResume | FenceOld

  datatype Value = Null | Truth(flag: bool) | Number(n: int) | Text(text: string)

  datatype Admission = Admission(slot: int, owner: Id, detail: nat)

  datatype SlotLock = SlotLock(slot: int, owner: Id, locked: bool)

  datatype Ownership = Ownership(legacyLocked: bool, slots: seq<SlotLock>)

  /** Times are the parsed instants. */
  datatype Canary = Canary(consumed: int, lastObservedAt: int, deadline: int, policy: nat)

  /** `control` and `canaryControl` stand for the whole policy rows. */
  datatype ProviderState = ProviderState(
    budget: map<string, Value>, control: nat, admissions: seq<Admission>, canaryControl: nat, canaries: seq<Canary>)

  datatype Digest = Sha256(state: ProviderState)

  datatype Hold = Hold(generation: Id, owner: Option<Id>, clean: bool, recovery: bool)

  datatype HoldControl = HoldControl(generation: Id, recovery: bool, startedAt: Value, control: nat)

  /** One bound provider observation: the five projected fields and what they were projected from. */
  datatype Observation = Observation(
    hold: Hold, accounting: Digest, state: ProviderState, ownership: Ownership, holdControl: HoldControl)

  datatype Guard = Guard(name: string, closedClean: bool, locked: bool)

  /** Physical closure evidence: SQL sessions, container exits, cgroup members and runtime guards. */
  datatype Closure = Closure(
    operation: Id, phase: Phase, stateAfter: Observation, sqlSessions: seq<nat>, containersExited: seq<bool>,
    cgroups: seq<seq<nat>>, guards: seq<Guard>)

  datatype OwnedHold = OwnedHold(
    operation: Id, intent: nat, owned: bool, original: Id, installed: Id, recovery: bool, released: bool)

  datatype Release = Release(hold: OwnedHold, released: Id)

  datatype Readback = Readback(hold: OwnedHold, release: Option<Release>, createdAt: Option<int>, releasedAt: Option<int>)

  datatype Receipt = Receipt(
    phase: Phase, before: Observation, after: Observation, created: bool, resumed: bool,
    closure: Option<Closure>, readback: Option<Readback>)

  datatype Authority = Authority(collectionResume: bool, releaseOwnedCleanHold: bool)

  datatype Operation = Operation(id: Id, action: Action, authority: Authority)

  // ---------- provider_observation ----------

  predicate CleanBudget(budget: map<string, Value>) {
    && "unresolved_response" in budget && budget["unresolved_response"] == Truth(false)
    && "admission_owner" in budget && budget["admission_owner"] == Null
  }

  predicate Clean(state: ProviderState, ownership: Ownership) {
    && CleanBudget(state.budget) && !ownership.legacyLocked
    && forall k :: 0 <= k < |ownership.slots| ==> ownership.slots[k].locked
  }

  predicate ValidOwnership(rows: seq<Admission>, slots: seq<SlotLock>) {
    && |rows| <= 16 && |slots| == |rows|
    && (forall k :: 0 <= k < |rows| ==> 1 <= rows[k].slot <= 16)
    && (forall j, k :: 0 <= j < k < |rows| ==> rows[j].slot != rows[k].slot)
    && (forall j, k :: 0 <= j < k < |slots| ==> slots[j].slot != slots[k].slot)
    && (forall k :: 0 <= k < |slots| ==>
          exists j :: 0 <= j < |rows| && rows[j].slot == slots[k].slot && rows[j].owner == slots[k].owner)
  }

  predicate ValidObservation(o: Observation) {
    && o.state.control == o.holdControl.control
    && o.hold.generation == o.holdControl.generation
    && o.hold.recovery == o.holdControl.recovery
    && o.accounting == Sha256(o.state)
    && ValidOwnership(o.state.admissions, o.ownership.slots)
    && "unresolved_response" in o.state.budget && o.state.budget["unresolved_response"].Truth?
    && "admission_owner" in o.state.budget
    && (o.hold.clean <==> Clean(o.state, o.ownership))
  }

  // ---------- provider_closure ----------

  predicate SettlementPhase(op: Operation, phase: Phase) {
    phase.Stop? || phase.DrainWriters? || (phase.FenceOld? && op.action.ManualFailover?)
  }

  predicate ValidClosure(op: Operation, r: Receipt) {
    && r.closure.Some?
    && var c := r.closure.value;
    && c.operation == op.id && c.phase == r.phase && SettlementPhase(op, r.phase)
    && c.stateAfter == r.after
    && c.sqlSessions == [] && |c.containersExited| <= 4096
    && (forall k :: 0 <= k < |c.containersExited| ==> c.containersExited[k])
    && 0 < |c.cgroups| <= 4096 && (forall k :: 0 <= k < |c.cgroups| ==> c.cgroups[k] == [])
    && |c.guards| <= 512
    && (forall k :: 0 <= k < |c.guards| ==> c.guards[k].closedClean && !c.guards[k].locked)
    && (forall j, k :: 0 <= j < k < |c.guards| ==> c.guards[j].name != c.guards[k].name)
  }

  // ---------- provider_progress ----------

  const COUNTERS := {"daily_used", "on_demand_used", "pilot_used", "next_request_at_ms", "next_allowed_at"}
  const MONOTONIC := COUNTERS + {"collection_scheduler_seen_at"}
  const CHARGES := {"daily_used", "on_demand_used", "pilot_used"}
  const MAX_COUNTER := 0x7FFF_FFFF_FFFF_FFFF

  predicate CounterAdvances(x: Value, y: Value) {
    x.Number? && y.Number? && 0 <= x.n <= y.n <= MAX_COUNTER
  }

  predicate BudgetAdvances(x: map<string, Value>, y: map<string, Value>) {
    && x.Keys == y.Keys
    && "utc_day" in x && x["utc_day"].Number? && x["utc_day"] == y["utc_day"]
    && COUNTERS <= x.Keys
    && forall key :: key in x ==>
         if key in MONOTONIC then CounterAdvances(x[key], y[key])
         else if key == "last_admission_mode" then
           && y[key] in {Null, Text("continuous"), Text("on_demand")}
           && (x[key] == y[key] || exists k :: k in CHARGES && x[k].Number? && y[k].Number? && y[k].n > x[k].n)
         else x[key] == y[key]
  }

  predicate CanaryAdvances(x: Canary, y: Canary) {
    && 0 <= x.consumed <= y.consumed <= 100
    && x.lastObservedAt <= y.lastObservedAt <= x.deadline
    && x.deadline == y.deadline && x.policy == y.policy
  }

  predicate CanariesAdvance(x: seq<Canary>, y: seq<Canary>) {
    |x| == |y| <= 1 && forall k :: 0 <= k < |x| ==> CanaryAdvances(x[k], y[k])
  }

  predicate SameProvider(x: Observation, y: Observation) {
    x.state == y.state && x.ownership == y.ownership
  }

  predicate NoAdmissions(o: Observation) {
    o.state.admissions == [] && o.ownership.slots == [] && !o.ownership.legacyLocked
  }

  predicate ProviderProgress(op: Operation, r: Receipt, x: Observation, y: Observation, terminal: Observation) {
    && (x.hold.generation == y.hold.generation && x.hold.owner == y.hold.owner && x.hold.recovery == y.hold.recovery ==>
          x.holdControl == y.holdControl)
    && (!SameProvider(x, y) ==>
          && SettlementPhase(op, r.phase)
          && x.hold.clean && !x.hold.recovery && x.hold.owner.None?
          && y.hold.clean
          && ValidClosure(op, r)
          && x.state.control == y.state.control && x.state.canaryControl == y.state.canaryControl
          && BudgetAdvances(x.state.budget, y.state.budget)
          && CanariesAdvance(x.state.canaries, y.state.canaries)
          && NoAdmissions(terminal))
  }

  // ---------- check_hold ----------

  predicate ResumePhase(phase: Phase) {
    phase.ResumeOwnedHold? || phase.StrictResume?
  }

  predicate InstallPhase(op: Operation, phase: Phase) {
    phase.DrainWriters? || (phase.FenceOld? && op.action.ManualFailover?)
  }

  /** The receipts so far that say this operation created the hold. */
  function Owned(previous: seq<Receipt>): seq<Receipt> {
    if previous == [] then []
    else Owned(previous[..|previous| - 1]) + (if previous[|previous| - 1].created then [previous[|previous| - 1]] else [])
  }

  predicate HasPhase(previous: seq<Receipt>, phase: Phase) {
    exists k :: 0 <= k < |previous| && previous[k].phase == phase
  }

  predicate ChainsToPrevious(op: Operation, previous: seq<Receipt>, r: Receipt) {
    if r.phase.Qualify? then
      previous == [] && r.before.hold == r.after.hold && r.before.accounting == r.after.accounting
      && SameProvider(r.before, r.after)
    else
      && previous != []
      && var prior := previous[|previous| - 1].after;
         r.before.hold == prior.hold && ProviderProgress(op, r, prior, r.before, r.after)
  }

  /** The checkpoint readback shows a hold owned by this operation and not released in its own record. */
  predicate OwnedReadback(op: Operation, r: Receipt) {
    && r.readback.Some? && r.readback.value.createdAt.Some?
    && r.readback.value.hold.operation == op.id && r.readback.value.hold.owned
    && r.readback.value.hold.recovery && !r.readback.value.hold.released
  }

  predicate InstallsHold(op: Operation, r: Receipt) {
    && OwnedReadback(op, r) && r.created
    && r.before.hold == Hold(r.before.hold.generation, None, true, false)
    && r.after.hold == Hold(r.after.hold.generation, Some(op.id), true, true)
    && r.readback.value.hold.original == r.before.hold.generation
    && r.readback.value.hold.installed == r.after.hold.generation
    && r.before.hold.generation != r.after.hold.generation
    && r.readback.value.release.None? && r.readback.value.releasedAt.None?
  }

  predicate ReleasesHold(op: Operation, previous: seq<Receipt>, r: Receipt) {
    && OwnedReadback(op, r)
    && ResumePhase(r.phase) && r.created && Owned(previous) != []
    && op.authority.releaseOwnedCleanHold
    && r.before.hold == Hold(r.before.hold.generation, Some(op.id), true, true)
    && r.after.hold == Hold(r.after.hold.generation, None, true, false)
    && Owned(previous)[0].readback.Some?
    && r.readback.value.hold == Owned(previous)[0].readback.value.hold
    && r.readback.value.hold.installed == r.before.hold.generation
    && r.readback.value.release
       == Some(Release(r.readback.value.hold.(released := true, recovery := false), r.after.hold.generation))
    && r.after.hold.generation !in {r.before.hold.generation, r.readback.value.hold.original}
    && r.readback.value.releasedAt.Some?
    && HasPhase(previous, if op.action.Checkpoint? then DrainWriters else FenceOld)
  }

  predicate CheckHold(op: Operation, previous: seq<Receipt>, r: Receipt) {
    && (r.phase.FenceOld? ==> op.action.ManualFailover?)
    && ValidObservation(r.before) && ValidObservation(r.after)
    && (SettlementPhase(op, r.phase) ==> ValidClosure(op, r))
    && ChainsToPrevious(op, previous, r)
    && (r.resumed ==>
          ResumePhase(r.phase) && r.after.hold.clean && !r.after.hold.recovery && r.after.hold.owner.None?
          && op.authority.collectionResume)
    && ProviderProgress(op, r, r.before, r.after, r.after)
    && if r.before.hold == r.after.hold then r.created <==> Owned(previous) != []
       else
         && r.before.accounting == r.after.accounting
         && if InstallPhase(op, r.phase) && Owned(previous) == [] then InstallsHold(op, r)
            else ReleasesHold(op, previous, r)
  }

  /** Receipts accepted one after another by one operation. */
  predicate Accepted(op: Operation, rs: seq<Receipt>) {
    rs == [] || (Accepted(op, rs[..|rs| - 1]) && CheckHold(op, rs[..|rs| - 1], rs[|rs| - 1]))
  }

  lemma {:induction false} AcceptedAt(op: Operation, rs: seq<Receipt>, k: nat)
    requires Accepted(op, rs) && k < |rs|
    ensures CheckHold(op, rs[..k], rs[k])
    decreases |rs|
  {
    if k < |rs| - 1 {
      AcceptedAt(op, rs[..|rs| - 1], k);
      assert rs[..|rs| - 1][..k] == rs[..k];
    }
  }

  // ---------- the hold over a whole run ----------

  predicate Constant(rs: seq<Receipt>, lo: nat, hi: nat, hold: Hold)
    requires hi <= |rs|
  {
    forall k :: lo <= k < hi ==> rs[k].before.hold == hold && rs[k].after.hold == hold
  }

  /** Before the install nothing is created; from it on everything is, and it is the owned origin. */
  ghost predicate CreatedFrom(rs: seq<Receipt>, i: nat)
    requires i <= |rs|
  {
    && (forall k :: 0 <= k < i ==> !rs[k].created)
    && (forall k :: i <= k < |rs| ==> rs[k].created)
  }

  lemma LastApart(rs: seq<Receipt>, i: nat)
    requires i < |rs|
    ensures rs[i..] == rs[..|rs| - 1][i..] + [rs[|rs| - 1]]
  {
  }

  lemma {:induction false} OwnedFrom(rs: seq<Receipt>, i: nat)
    requires i <= |rs| && CreatedFrom(rs, i)
    ensures Owned(rs) == rs[i..]
    decreases |rs|
  {
    if rs != [] {
      var front := rs[..|rs| - 1];
      if i < |rs| {
        OwnedFrom(front, i);
        LastApart(rs, i);
      } else {
        OwnedFrom(front, |front|);
      }
    }
  }

  /** Where a run stands: no install, an install at `i`, or an install at `i` and a release at `j`. */
  ghost predicate NeverHeld(rs: seq<Receipt>) {
    CreatedFrom(rs, |rs|) && (rs != [] ==> Constant(rs, 0, |rs|, rs[0].before.hold))
  }

  ghost predicate HeldFrom(op: Operation, rs: seq<Receipt>, i: nat) {
    && i < |rs| && CreatedFrom(rs, i)
    && Constant(rs, 0, i, rs[i].before.hold)
    && InstallPhase(op, rs[i].phase) && InstallsHold(op, rs[i])
    && Constant(rs, i + 1, |rs|, rs[i].after.hold)
  }

  ghost predicate ReleasedAt(op: Operation, rs: seq<Receipt>, i: nat, j: nat) {
    && i < j < |rs| && CreatedFrom(rs, i)
    && Constant(rs, 0, i, rs[i].before.hold)
    && InstallPhase(op, rs[i].phase) && InstallsHold(op, rs[i])
    && Constant(rs, i + 1, j, rs[i].after.hold)
    && ResumePhase(rs[j].phase)
    && rs[j].before.hold == rs[i].after.hold
    && rs[j].after.hold == Hold(rs[j].after.hold.generation, None, true, false)
    && rs[j].after.hold.generation != rs[i].before.hold.generation
    && rs[j].after.hold.generation != rs[i].after.hold.generation
    && Constant(rs, j + 1, |rs|, rs[j].after.hold)
  }

  lemma StepFromNeverHeld(op: Operation, front: seq<Receipt>, r: Receipt)
    requires NeverHeld(front) && CheckHold(op, front, r)
    ensures NeverHeld(front + [r]) || HeldFrom(op, front + [r], |front|)
  {
    OwnedFrom(front, |front|);
    assert Owned(front) == [];
    var rs := front + [r];
    assert rs[..|front|] == front && rs[|front|] == r;
  }

  lemma StepFromHeld(op: Operation, front: seq<Receipt>, r: Receipt, i: nat)
    requires HeldFrom(op, front, i) && CheckHold(op, front, r)
    ensures HeldFrom(op, front + [r], i) || ReleasedAt(op, front + [r], i, |front|)
  {
    OwnedFrom(front, i);
    assert Owned(front)[0] == front[i];
    var rs := front + [r];
    assert rs[..|front|] == front && rs[|front|] == r;
    assert r.before.hold == front[i].after.hold;
  }

  lemma StepFromReleased(op: Operation, front: seq<Receipt>, r: Receipt, i: nat, j: nat)
    requires ReleasedAt(op, front, i, j) && CheckHold(op, front, r)
    ensures ReleasedAt(op, front + [r], i, j)
  {
    OwnedFrom(front, i);
    assert Owned(front)[0] == front[i];
    var rs := front + [r];
    assert rs[..|front|] == front && rs[|front|] == r;
    assert r.before.hold == front[j].after.hold;
  }

  /**
   The hold is constant, or constant then installed then constant, or then also released and constant;
   the original, installed and released generations are pairwise distinct.
   */
  ghost predicate Trajectory(op: Operation, rs: seq<Receipt>) {
    NeverHeld(rs) || (exists i: nat :: HeldFrom(op, rs, i)) || (exists i: nat, j: nat :: ReleasedAt(op, rs, i, j))
  }

  lemma StepTrajectory(op: Operation, front: seq<Receipt>, r: Receipt)
    requires Trajectory(op, front) && CheckHold(op, front, r)
    ensures Trajectory(op, front + [r])
  {
    if NeverHeld(front) {
      StepFromNeverHeld(op, front, r);
    } else if i: nat :| HeldFrom(op, front, i) {
      StepFromHeld(op, front, r, i);
    } else {
      var i: nat, j: nat :| ReleasedAt(op, front, i, j);
      StepFromReleased(op, front, r, i, j);
    }
  }

  lemma {:induction false} HoldTrajectory(op: Operation, rs: seq<Receipt>)
    requires Accepted(op, rs)
    ensures Trajectory(op, rs)
    decreases |rs|
  {
    if rs == [] {
      assert NeverHeld(rs);
    } else {
      var front, r := rs[..|rs| - 1], rs[|rs| - 1];
      HoldTrajectory(op, front);
      StepTrajectory(op, front, r);
      assert rs == front + [r];
    }
  }

  lemma TrajectoryKeepsClean(op: Operation, rs: seq<Receipt>, k: nat)
    requires Trajectory(op, rs) && k < |rs|
    ensures rs[k].before.hold.clean == rs[k].after.hold.clean == rs[0].before.hold.clean
    ensures rs[0].before.hold.owner.Some? || !rs[0].before.hold.clean || rs[0].before.hold.recovery ==>
              rs[k].before.hold == rs[0].before.hold && rs[k].after.hold == rs[0].before.hold
  {
    if !NeverHeld(rs) {
      if i: nat :| HeldFrom(op, rs, i) {
        assert rs[0].before.hold == rs[i].before.hold;
      } else {
        var i: nat, j: nat :| ReleasedAt(op, rs, i, j);
        assert rs[0].before.hold == rs[i].before.hold;
      }
    }
  }

  /** Cleanness never changes, and a hold that is foreign or unclean when first seen is never altered. */
  lemma ForeignHoldUntouched(op: Operation, rs: seq<Receipt>, k: nat)
    requires Accepted(op, rs) && k < |rs|
    ensures rs[k].before.hold.clean == rs[k].after.hold.clean == rs[0].before.hold.clean
    ensures rs[0].before.hold.owner.Some? || !rs[0].before.hold.clean || rs[0].before.hold.recovery ==>
              rs[k].before.hold == rs[0].before.hold && rs[k].after.hold == rs[0].before.hold
  {
    HoldTrajectory(op, rs);
    TrajectoryKeepsClean(op, rs, k);
  }

  // ---------- provider accounting over a whole run ----------

  lemma CheckedPair(op: Operation, rs: seq<Receipt>, k: nat)
    requires Accepted(op, rs) && 0 < k < |rs|
    ensures !rs[k].phase.Qualify? && rs[k].before.hold == rs[k - 1].after.hold
    ensures ProviderProgress(op, rs[k], rs[k - 1].after, rs[k].before, rs[k].after)
    ensures ProviderProgress(op, rs[k], rs[k].before, rs[k].after, rs[k].after)
  {
    AcceptedAt(op, rs, k);
    assert rs[..k] != [];
    assert rs[..k][k - 1] == rs[k - 1];
  }

  /** While a recovery hold is in place no receipt moves the provider, within it or since the one before. */
  ghost predicate HeldStill(rs: seq<Receipt>, k: nat)
    requires k < |rs|
  {
    && (rs[k].before.hold.recovery ==> SameProvider(rs[k].before, rs[k].after))
    && (k > 0 ==>
          && rs[k].before.hold == rs[k - 1].after.hold
          && (rs[k].before.hold.recovery ==> SameProvider(rs[k - 1].after, rs[k].before)))
  }

  lemma AcceptedHeldStill(op: Operation, rs: seq<Receipt>, k: nat)
    requires Accepted(op, rs) && k < |rs|
    ensures HeldStill(rs, k)
  {
    AcceptedAt(op, rs, k);
    if k > 0 {
      CheckedPair(op, rs, k);
    }
  }

  lemma {:induction false} FrozenWhileHeld(rs: seq<Receipt>, i: nat, k: nat)
    requires i < k < |rs| && forall m :: 0 <= m < |rs| ==> HeldStill(rs, m)
    requires rs[i].after.hold.recovery && forall m :: i < m < k ==> rs[m].before.hold == rs[m].after.hold
    ensures SameProvider(rs[i].after, rs[k].before) && SameProvider(rs[i].after, rs[k].after)
    ensures rs[k].before.hold == rs[i].after.hold
    decreases k
  {
    assert HeldStill(rs, k);
    if i < k - 1 {
      FrozenWhileHeld(rs, i, k - 1);
    }
  }

  /** From the install to the end, or to the release and including it, nothing of the provider moves. */
  lemma InstallFreezesProvider(op: Operation, rs: seq<Receipt>, i: nat, k: nat)
    requires Accepted(op, rs) && i < k < |rs|
    requires HeldFrom(op, rs, i) || (exists j: nat :: k <= j && ReleasedAt(op, rs, i, j))
    ensures SameProvider(rs[i].after, rs[k].before) && SameProvider(rs[i].after, rs[k].after)
  {
    forall m | 0 <= m < |rs| ensures HeldStill(rs, m) {
      AcceptedHeldStill(op, rs, m);
    }
    FrozenWhileHeld(rs, i, k);
  }

  predicate CanaryLeads(x: Canary, y: Canary) {
    x.consumed <= y.consumed <= 100 && x.lastObservedAt <= y.lastObservedAt <= y.deadline
  }

  /**
   Policy and day unchanged, no counter, canary charge or time of observation ever lower; what moves stays
   within 100 charges and the deadline.
   */
  ghost predicate Leads(x: ProviderState, y: ProviderState) {
    && x.control == y.control && x.canaryControl == y.canaryControl
    && x.budget.Keys == y.budget.Keys
    && (forall key :: key in x.budget && key in MONOTONIC ==>
          x.budget[key] == y.budget[key]
          || (x.budget[key].Number? && y.budget[key].Number? && x.budget[key].n <= y.budget[key].n))
    && (forall key :: key in x.budget && key !in MONOTONIC && key != "last_admission_mode" ==>
          x.budget[key] == y.budget[key])
    && |x.canaries| == |y.canaries|
    && (forall k :: 0 <= k < |x.canaries| ==>
          && x.canaries[k].deadline == y.canaries[k].deadline && x.canaries[k].policy == y.canaries[k].policy
          && (x.canaries[k] == y.canaries[k] || CanaryLeads(x.canaries[k], y.canaries[k])))
  }

  lemma ProgressLeads(op: Operation, r: Receipt, x: Observation, y: Observation, terminal: Observation)
    requires ProviderProgress(op, r, x, y, terminal)
    ensures Leads(x.state, y.state)
  {
  }

  lemma LeadsTransitive(x: ProviderState, y: ProviderState, z: ProviderState)
    requires Leads(x, y) && Leads(y, z)
    ensures Leads(x, z)
  {
  }

  ghost predicate StepLeads(rs: seq<Receipt>, k: nat)
    requires k < |rs|
  {
    && Leads(rs[k].before.state, rs[k].after.state)
    && (k > 0 ==> Leads(rs[k - 1].after.state, rs[k].before.state))
  }

  lemma AcceptedStepLeads(op: Operation, rs: seq<Receipt>, k: nat)
    requires Accepted(op, rs) && k < |rs|
    ensures StepLeads(rs, k)
  {
    AcceptedAt(op, rs, k);
    ProgressLeads(op, rs[k], rs[k].before, rs[k].after, rs[k].after);
    if k > 0 {
      CheckedPair(op, rs, k);
      ProgressLeads(op, rs[k], rs[k - 1].after, rs[k].before, rs[k].after);
    }
  }

  lemma {:induction false} LeadsAlong(rs: seq<Receipt>, i: nat, k: nat)
    requires i <= k < |rs| && forall m :: 0 <= m < |rs| ==> StepLeads(rs, m)
    ensures Leads(rs[i].before.state, rs[k].before.state) && Leads(rs[i].before.state, rs[k].after.state)
    decreases k
  {
    assert StepLeads(rs, k);
    if i < k {
      LeadsAlong(rs, i, k - 1);
      LeadsTransitive(rs[i].before.state, rs[k - 1].after.state, rs[k].before.state);
    }
    LeadsTransitive(rs[i].before.state, rs[k].before.state, rs[k].after.state);
  }

  /** Over every accepted run the accounting only advances, from any observation to any later one. */
  lemma AccountingOnlyAdvances(op: Operation, rs: seq<Receipt>, i: nat, k: nat)
    requires Accepted(op, rs) && i <= k < |rs|
    ensures Leads(rs[i].before.state, rs[k].before.state) && Leads(rs[i].before.state, rs[k].after.state)
  {
    forall m | 0 <= m < |rs| ensures StepLeads(rs, m) {
      AcceptedStepLeads(op, rs, m);
    }
    LeadsAlong(rs, i, k);
  }

  /** Whatever moved during or since the previous receipt ended with no admissions, after recorded closure. */
  lemma ProgressEndsSettled(op: Operation, rs: seq<Receipt>, k: nat)
    requires Accepted(op, rs) && k < |rs|
    requires !SameProvider(rs[k].before, rs[k].after) || (k > 0 && !SameProvider(rs[k - 1].after, rs[k].before))
    ensures NoAdmissions(rs[k].after) && ValidClosure(op, rs[k]) && SettlementPhase(op, rs[k].phase)
    ensures !rs[k].before.hold.recovery && rs[k].before.hold.owner.None? && rs[k].before.hold.clean
  {
    AcceptedAt(op, rs, k);
    if k > 0 {
      CheckedPair(op, rs, k);
    }
  }

  /** The install itself changes no accounting and no lock. */
  lemma InstallChangesOnlyTheHold(op: Operation, rs: seq<Receipt>, i: nat)
    requires Accepted(op, rs) && i < |rs| && rs[i].before.hold != rs[i].after.hold
    ensures SameProvider(rs[i].before, rs[i].after)
  {
    AcceptedAt(op, rs, i);
  }
}
