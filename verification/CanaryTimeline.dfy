/**
 The six-hour canary watch: what `Timeline.accept` demands of each sample, what that means for a whole
 accepted run, and whether the sleep schedule of `observe` can run into the sample cap.
 */
module CanaryTimeline {
  import opened Prelude

  const DURATION := 21600.0
  const INTERVAL := 55.0
  const SAMPLE_TIMEOUT := 5.0
  const MAX_GAP := 60.0
  const MAX_SAMPLES := 400
  const MAX_CONSUMED := 100
  const DAY := 86400.0
  const TIMER_HOUR := 68400.0

  type Id = string

  datatype Inventory = Inventory(canaryId: Id, recoveryOperation: Id, podUid: Id)

  datatype Window = Window(id: Id, operation: Id, started: real, deadline: real)
  datatype Row = Row(window: Window, consumed: int, lastObserved: real, ended: bool)
  datatype Observation = Observation(at: real, required: Option<Id>, row: Option<Row>)

  datatype Clock = Clock(mono: real, wall: real, elapsed: real)
  datatype Pod = Pod(uid: Id, image: Id, ready: bool, restarts: int)
  datatype Provider = Provider(policy: Id, unresolved: bool, owner: Option<Id>, legacyLocked: bool, slotsLocked: bool)

  datatype Sample = Sample(clock: Clock, canary: Observation, pods: seq<Pod>, provider: Provider)

  datatype Stage = Before | After | Observe

  function Abs(x: real): real {
    if x < 0.0 then -x else x
  }

  /** The next 19:00 UTC strictly after the stamp. */
  function NextTimer(stamp: real): real {
    var boundary := (stamp / DAY).Floor as real * DAY + TIMER_HOUR;
    if boundary <= stamp then boundary + DAY else boundary
  }

  /** A 19:00 UTC boundary is a whole number of days and nineteen hours. */
  function TimerOn(day: int): real {
    day as real * DAY + TIMER_HOUR
  }

  ghost predicate IsTimer(t: real) {
    exists day: int :: t == TimerOn(day)
  }

  lemma FloorBounds(x: real)
    ensures x.Floor as real <= x < x.Floor as real + 1.0
  {
  }

  /** `next_timer` finds the boundary: no 19:00 lies between the stamp and it. */
  lemma NextTimerIsNext(stamp: real)
    ensures IsTimer(NextTimer(stamp)) && stamp < NextTimer(stamp) <= stamp + DAY
    ensures forall t :: IsTimer(t) && stamp < t ==> NextTimer(stamp) <= t
  {
    var days := (stamp / DAY).Floor;
    FloorBounds(stamp / DAY);
    var low := days as real * DAY;
    assert low <= stamp < low + DAY by {
      assert stamp == stamp / DAY * DAY;
    }
    if low + TIMER_HOUR <= stamp {
      assert NextTimer(stamp) == TimerOn(days + 1);
    } else {
      assert NextTimer(stamp) == TimerOn(days);
    }
    forall t | IsTimer(t) && stamp < t ensures NextTimer(stamp) <= t {
      var other: int :| t == TimerOn(other);
      TimersInOrder(days, other);
    }
  }

  lemma TimersInOrder(a: int, b: int)
    ensures a < b ==> TimerOn(a) + DAY <= TimerOn(b)
    ensures b < a ==> TimerOn(b) + DAY <= TimerOn(a)
  {
  }

  // ---------- one sample ----------

  /** `canary`: a well-formed observation, closed or of this canary and its unchanged window. */
  predicate CanaryOk(o: Observation, inventory: Inventory) {
    match o.row
    case None => true
    case Some(row) =>
      && row.window.id == inventory.canaryId && row.window.operation == inventory.recoveryOperation
      && o.required == Some(row.window.id) && 0 <= row.consumed <= MAX_CONSUMED
      && row.window.deadline - row.window.started == DURATION
      && row.window.started <= row.lastObserved <= row.window.deadline && row.lastObserved <= o.at
      && !row.ended
  }

  datatype State = State(before: Option<Sample>, after: Option<Sample>, last: Option<Sample>, count: nat)

  const START := State(None, None, None, 0)

  predicate ClocksOk(st: State, s: Sample) {
    && 0.0 <= s.clock.elapsed <= SAMPLE_TIMEOUT
    && st.count < MAX_SAMPLES && Abs(s.canary.at - s.clock.wall) <= SAMPLE_TIMEOUT
    && (st.last.Some? && st.before.Some? ==> SpacingOk(st.before.value.clock, st.last.value.clock, s.clock))
    && s.clock.wall < NextTimer(if st.before.Some? then st.before.value.clock.wall else s.clock.wall)
  }

  predicate SpacingOk(before: Clock, last: Clock, now: Clock) {
    var delta := now.mono - last.mono;
    && 0.0 <= delta <= MAX_GAP && Abs((now.wall - last.wall) - delta) <= 1.0
    && Abs((now.wall - before.wall) - (now.mono - before.mono)) <= 1.0
  }

  predicate NativeOk(st: State, s: Sample, inventory: Inventory) {
    && |s.pods| == 1 && s.pods[0].uid == inventory.podUid && s.pods[0].ready && s.pods[0].restarts == 0
    && (st.before.Some? ==>
          s.pods == st.before.value.pods && s.provider.policy == st.before.value.provider.policy)
    && s.provider.slotsLocked
    && (s.provider.unresolved ==> s.provider.owner.Some? && s.provider.legacyLocked)
  }

  predicate ActivationOk(before: Sample, s: Sample) {
    && s.canary.row.Some?
    && before.canary.at <= s.canary.row.value.window.started <= s.canary.at
    && s.clock.mono - before.clock.mono <= MAX_GAP
    && s.clock.wall + DURATION < NextTimer(before.clock.wall)
  }

  /** Same window as at activation, consumption never back, and nothing charged once past the deadline. */
  predicate ProgressOk(original: Row, previous: Observation, row: Row)
    requires previous.row.Some?
  {
    && row.window == original.window
    && row.consumed >= previous.row.value.consumed && row.lastObserved >= previous.row.value.lastObserved
    && (previous.at >= row.window.deadline ==> row.consumed == previous.row.value.consumed)
  }

  predicate StageOk(st: State, s: Sample, stage: Stage) {
    match stage
    case Before => st.before.None? && s.canary.row.None?
    case After => st.before.Some? && st.after.None? && ActivationOk(st.before.value, s)
    case Observe =>
      && st.after.Some? && st.after.value.canary.row.Some? && st.last.Some? && st.last.value.canary.row.Some?
      && s.canary.row.Some?
      && ProgressOk(st.after.value.canary.row.value, st.last.value.canary, s.canary.row.value)
  }

  predicate Accepts(st: State, s: Sample, stage: Stage, inventory: Inventory) {
    ClocksOk(st, s) && CanaryOk(s.canary, inventory) && NativeOk(st, s, inventory) && StageOk(st, s, stage)
  }

  function Next(st: State, s: Sample, stage: Stage): State {
    State(if stage == Before then Some(s) else st.before,
          if stage == After then Some(s) else st.after,
          Some(s), st.count + 1)
  }

  /** The window has been watched in full, and the database has seen its deadline. */
  predicate Complete(st: State) {
    && st.after.Some? && st.last.Some? && st.last.value.canary.row.Some?
    && st.last.value.clock.mono - st.after.value.clock.mono >= DURATION
    && st.last.value.canary.at >= st.last.value.canary.row.value.window.deadline
  }

  class Timeline {
    const inventory: Inventory
    var before: Option<Sample>
    var after: Option<Sample>
    var last: Option<Sample>
    var count: nat
    var anchor: Option<real>
    var policy: Option<Id>

    ghost function View(): State
      reads this
    {
      State(before, after, last, count)
    }

    ghost predicate Valid()
      reads this
    {
      && (anchor == if after.Some? then Some(after.value.clock.mono) else None)
      && (policy == if before.Some? then Some(before.value.provider.policy) else None)
      && (before.Some? <==> last.Some?) && (after.Some? ==> before.Some? && after.value.canary.row.Some? && last.value.canary.row.Some?)
    }

    constructor (inventory: Inventory)
      ensures Valid() && View() == START && this.inventory == inventory
    {
      this.inventory := inventory;
      before, after, last, count, anchor, policy := None, None, None, 0, None, None;
    }

    /** `accept`: takes the sample exactly when every demand is met, and says when the watch is complete. */
    method Accept(s: Sample, stage: Stage) returns (ok: bool, complete: bool)
      requires Valid()
      modifies this
      ensures Valid()
      ensures ok <==> Accepts(old(View()), s, stage, inventory)
      ensures View() == if ok then Next(old(View()), s, stage) else old(View())
      ensures complete <==> ok && Complete(View())
    {
      complete := false;
      if s.clock.elapsed < 0.0 || s.clock.elapsed > SAMPLE_TIMEOUT {
        return false, false;
      }
      if count >= MAX_SAMPLES || Abs(s.canary.at - s.clock.wall) > SAMPLE_TIMEOUT {
        return false, false;
      }
      if last.Some? && !SpacingOk(before.value.clock, last.value.clock, s.clock) {
        return false, false;
      }
      if s.clock.wall >= NextTimer(if before.Some? then before.value.clock.wall else s.clock.wall) {
        return false, false;
      }
      if !CanaryOk(s.canary, inventory) {
        return false, false;
      }
      var row := s.canary.row;
      if |s.pods| != 1 || s.pods[0].uid != inventory.podUid || !s.pods[0].ready || s.pods[0].restarts != 0 {
        return false, false;
      }
      if before.Some? && (s.pods != before.value.pods || Some(s.provider.policy) != policy) {
        return false, false;
      }
      if !s.provider.slotsLocked || (s.provider.unresolved && (s.provider.owner.None? || !s.provider.legacyLocked)) {
        return false, false;
      }
      match stage {
        case Before =>
          if before.Some? || row.Some? {
            return false, false;
          }
          before, policy := Some(s), Some(s.provider.policy);
        case After =>
          if before.None? || after.Some? || row.None? || !ActivationOk(before.value, s) {
            return false, false;
          }
          after, anchor := Some(s), Some(s.clock.mono);
        case Observe =>
          if after.None? || row.None?
             || !ProgressOk(after.value.canary.row.value, last.value.canary, row.value) {
            return false, false;
          }
      }
      last, count := Some(s), count + 1;
      ok := true;
      complete := anchor.Some? && s.clock.mono - anchor.value >= DURATION && row.Some? && s.canary.at >= row.value.window.deadline;
    }
  }

  // ---------- accepted runs ----------

  type Run = seq<(Stage, Sample)>

  ghost function Final(run: Run): State
    decreases |run|
  {
    if run == [] then START
    else Next(Final(run[..|run| - 1]), run[|run| - 1].1, run[|run| - 1].0)
  }

  ghost predicate Accepted(run: Run, inventory: Inventory)
    decreases |run|
  {
    run == [] || (
      && Accepted(run[..|run| - 1], inventory)
      && Accepts(Final(run[..|run| - 1]), run[|run| - 1].1, run[|run| - 1].0, inventory))
  }

  function StageAt(k: nat): Stage {
    if k == 0 then Before else if k == 1 then After else Observe
  }

  /** An accepted run is one sample before, one after activation, and then observations. */
  lemma {:induction false} RunShape(run: Run, inventory: Inventory)
    requires Accepted(run, inventory)
    ensures forall k :: 0 <= k < |run| ==> run[k].0 == StageAt(k) && (k >= 1 ==> run[k].1.canary.row.Some?)
    ensures Final(run) == State(if |run| >= 1 then Some(run[0].1) else None, if |run| >= 2 then Some(run[1].1) else None,
                                if |run| >= 1 then Some(run[|run| - 1].1) else None, |run|)
    ensures |run| <= MAX_SAMPLES
    decreases |run|
  {
    if run != [] {
      RunShape(run[..|run| - 1], inventory);
    }
  }

  lemma {:induction false} PrefixAccepted(run: Run, k: nat, inventory: Inventory)
    requires Accepted(run, inventory) && k <= |run|
    ensures Accepted(run[..k], inventory)
    decreases |run|
  {
    if k < |run| {
      PrefixAccepted(run[..|run| - 1], k, inventory);
      assert run[..|run| - 1][..k] == run[..k];
    } else {
      assert run[..k] == run;
    }
  }

  /** What acceptance of a sample says of the first, the activation and the previous one. */
  ghost predicate StepOk(first: Sample, activation: Sample, previous: Sample, s: Sample, k: nat, inventory: Inventory) {
    && SpacingOk(first.clock, previous.clock, s.clock)
    && Abs(s.canary.at - s.clock.wall) <= SAMPLE_TIMEOUT
    && s.clock.wall < NextTimer(first.clock.wall)
    && s.pods == first.pods && s.provider.policy == first.provider.policy
    && CanaryOk(s.canary, inventory) && s.canary.row.Some?
    && (k == 1 ==> ActivationOk(first, s))
    && (k >= 2 ==> previous.canary.row.Some? && activation.canary.row.Some?
                   && ProgressOk(activation.canary.row.value, previous.canary, s.canary.row.value))
  }

  ghost predicate StepHolds(run: Run, k: nat, inventory: Inventory)
    requires 1 <= k < |run|
  {
    StepOk(run[0].1, run[1].1, run[k - 1].1, run[k].1, k, inventory)
  }

  lemma EveryStepHolds(run: Run, k: nat, inventory: Inventory)
    requires Accepted(run, inventory) && 1 <= k < |run|
    ensures StepHolds(run, k, inventory)
  {
    PrefixAccepted(run, k + 1, inventory);
    LastStepHolds(run[..k + 1], inventory);
    forall i | 0 <= i <= k ensures run[..k + 1][i] == run[i] {
    }
  }

  lemma LastStepHolds(run: Run, inventory: Inventory)
    requires Accepted(run, inventory) && |run| >= 2
    ensures StepHolds(run, |run| - 1, inventory)
  {
    var k := |run| - 1;
    RunShape(run[..k], inventory);
    RunShape(run, inventory);
    forall i | 0 <= i < k ensures run[..k][i] == run[i] {
    }
  }

  /** Any two samples of a run: time goes on, and by no more than a minute a sample. */
  lemma {:induction false} TimeGoesOn(run: Run, i: nat, j: nat, inventory: Inventory)
    requires Accepted(run, inventory) && i <= j < |run|
    ensures 0.0 <= run[j].1.clock.mono - run[i].1.clock.mono <= (j - i) as real * MAX_GAP
    decreases j
  {
    if i < j {
      EveryStepHolds(run, j, inventory);
      TimeGoesOn(run, i, j - 1, inventory);
    }
  }

  /** From activation on: one window, and consumption that never falls and never passes the cap. */
  lemma {:induction false} OneWindow(run: Run, i: nat, j: nat, inventory: Inventory)
    requires Accepted(run, inventory) && 1 <= i <= j < |run|
    ensures run[i].1.canary.row.Some? && run[j].1.canary.row.Some? && run[1].1.canary.row.Some?
    ensures run[i].1.canary.row.value.window == run[j].1.canary.row.value.window == run[1].1.canary.row.value.window
    ensures run[i].1.canary.row.value.consumed <= run[j].1.canary.row.value.consumed <= MAX_CONSUMED
    decreases j
  {
    EveryStepHolds(run, j, inventory);
    EveryStepHolds(run, 1, inventory);
    if i < j {
      OneWindow(run, i, j - 1, inventory);
    } else if j > 1 {
      OneWindow(run, 1, j - 1, inventory);
    }
  }

  /** Something charged between two samples was charged right after a sample dated before the deadline. */
  lemma {:induction false} ChargesNeedTheWindow(run: Run, i: nat, j: nat, inventory: Inventory) returns (k: nat)
    requires Accepted(run, inventory) && 1 <= i < j < |run|
    requires run[i].1.canary.row.Some? && run[j].1.canary.row.Some?
    requires run[j].1.canary.row.value.consumed > run[i].1.canary.row.value.consumed
    ensures i <= k < j && run[1].1.canary.row.Some? && run[k].1.canary.row.Some? && run[k + 1].1.canary.row.Some?
    ensures run[k + 1].1.canary.row.value.consumed > run[k].1.canary.row.value.consumed
    ensures run[k].1.canary.at < run[1].1.canary.row.value.window.deadline
    decreases j
  {
    EveryStepHolds(run, j, inventory);
    OneWindow(run, i, j - 1, inventory);
    OneWindow(run, i, j, inventory);
    k := j - 1;
    if run[j].1.canary.row.value.consumed == run[k].1.canary.row.value.consumed {
      k := ChargesNeedTheWindow(run, i, j - 1, inventory);
    }
  }

  /** Everything `accept` demands of an observation but the rule on charges past the deadline. */
  predicate AcceptsButForDeadline(st: State, s: Sample, inventory: Inventory) {
    && ClocksOk(st, s) && CanaryOk(s.canary, inventory) && NativeOk(st, s, inventory)
    && st.after.Some? && st.after.value.canary.row.Some? && st.last.Some? && st.last.value.canary.row.Some?
    && s.canary.row.Some?
    && var original, previous, row := st.after.value.canary.row.value, st.last.value.canary.row.value, s.canary.row.value;
    row.window == original.window && row.consumed >= previous.consumed && row.lastObserved >= previous.lastObserved
  }

  /** A sample that charges and is otherwise in order is taken if and only if the one before was dated before the deadline. */
  lemma ChargeTakenExactlyBefore(run: Run, s: Sample, inventory: Inventory)
    requires Accepted(run, inventory) && |run| >= 2 && AcceptsButForDeadline(Final(run), s, inventory)
    requires s.canary.row.value.consumed > Final(run).last.value.canary.row.value.consumed
    ensures run[1].1.canary.row.Some?
    ensures Accepted(run + [(Observe, s)], inventory) <==>
              run[|run| - 1].1.canary.at < run[1].1.canary.row.value.window.deadline
  {
    RunShape(run, inventory);
    var longer := run + [(Observe, s)];
    assert longer[..|longer| - 1] == run;
  }

  /** A later sample is never dated more than twelve seconds earlier. */
  lemma DatedLater(run: Run, i: nat, j: nat, inventory: Inventory)
    requires Accepted(run, inventory) && 1 <= i <= j < |run|
    ensures run[j].1.canary.at >= run[i].1.canary.at - 12.0
  {
    EveryStepHolds(run, i, inventory);
    EveryStepHolds(run, j, inventory);
    TimeGoesOn(run, i, j, inventory);
  }

  /** Whatever the database clock does, nothing is charged after a sample dated twelve seconds past the deadline. */
  lemma {:induction false} NothingChargedTwelveSecondsLater(run: Run, i: nat, j: nat, inventory: Inventory)
    requires Accepted(run, inventory) && 1 <= i <= j < |run| && run[1].1.canary.row.Some?
    requires run[i].1.canary.at >= run[1].1.canary.row.value.window.deadline + 12.0
    ensures run[i].1.canary.row.Some? && run[j].1.canary.row.Some?
    ensures run[j].1.canary.row.value.consumed == run[i].1.canary.row.value.consumed
  {
    OneWindow(run, i, j, inventory);
    if run[j].1.canary.row.value.consumed > run[i].1.canary.row.value.consumed {
      var k := ChargesNeedTheWindow(run, i, j, inventory);
      DatedLater(run, i, k, inventory);
    }
  }

  /** A watch that is reported complete covered its six hours, with a sample at least every minute. */
  lemma CompleteRun(run: Run, inventory: Inventory)
    requires Accepted(run, inventory) && Complete(Final(run))
    ensures 362 <= |run| <= MAX_SAMPLES
    ensures run[|run| - 1].1.clock.mono - run[1].1.clock.mono >= DURATION
    ensures forall k {:trigger StepHolds(run, k, inventory)} :: 1 <= k < |run| ==> StepHolds(run, k, inventory)
    ensures run[1].1.clock.wall + DURATION < NextTimer(run[0].1.clock.wall)
    ensures run[|run| - 1].1.canary.row.Some? && run[1].1.canary.row.Some?
    ensures run[|run| - 1].1.canary.at >= run[1].1.canary.row.value.window.deadline
  {
    var last := |run| - 1;
    RunShape(run, inventory);
    EveryStepHolds(run, 1, inventory);
    OneWindow(run, 1, last, inventory);
    TimeGoesOn(run, 1, last, inventory);
    forall k | 1 <= k < |run| ensures StepHolds(run, k, inventory) {
      EveryStepHolds(run, k, inventory);
    }
  }

  /** No 19:00 UTC falls between the first sample and any other, in wall time. */
  lemma NoTimerCrossed(run: Run, k: nat, t: real, inventory: Inventory)
    requires Accepted(run, inventory) && 1 <= k < |run|
    requires IsTimer(t) && run[0].1.clock.wall < t
    ensures run[k].1.clock.wall < t
  {
    EveryStepHolds(run, k, inventory);
    NextTimerIsNext(run[0].1.clock.wall);
  }

  // ---------- a charge after the deadline ----------

  const INVENTORY := Inventory("canary", "recovery", "pod")

  /** A sample whose two clocks agree, of a window that started at `started`. */
  function WatchSample(started: real, mono: real, at: real, consumed: int): Sample {
    Sample(Clock(mono, mono, 0.0),
           Observation(at, Some("canary"),
                       Some(Row(Window("canary", "recovery", started, started + DURATION), consumed, started, false))),
           [Pod("pod", "image", true, 0)], Provider("policy", false, None, true, true))
  }

  function FirstSample(): Sample {
    Sample(Clock(0.0, 0.0, 0.0), Observation(0.0, None, None),
           [Pod("pod", "image", true, 0)], Provider("policy", false, None, true, true))
  }

  /** The state of the timeline after samples of this shape, activated at 60. */
  function Watched(started: real, last: Sample, count: nat): State {
    State(Some(FirstSample()), Some(WatchSample(started, 60.0, started, 0)), Some(last), count)
  }

  lemma TimerFromZero()
    ensures NextTimer(0.0) == TIMER_HOUR
  {
    assert (0.0 / DAY).Floor == 0;
  }

  lemma ActivatedAt(started: real)
    requires 60.0 <= started <= 65.0
    ensures var run := [(Before, FirstSample()), (After, WatchSample(started, 60.0, started, 0))];
            && Accepted(run, INVENTORY) && Final(run) == Watched(started, WatchSample(started, 60.0, started, 0), 2)
  {
    var first := [(Before, FirstSample())];
    var run := first + [(After, WatchSample(started, 60.0, started, 0))];
    TimerFromZero();
    assert first[..0] == [] && Accepted([], INVENTORY) && Accepted(first, INVENTORY);
    assert run[..1] == first;
    assert run == [(Before, FirstSample()), (After, WatchSample(started, 60.0, started, 0))];
  }

  lemma ObservedNext(run: Run, started: real, mono: real, at: real, consumed: int, mono': real, at': real, consumed': int)
    returns (longer: Run)
    requires Accepted(run, INVENTORY) && Final(run) == Watched(started, WatchSample(started, mono, at, consumed), |run|)
    requires 60.0 <= mono <= mono' <= mono + 60.0 && mono' < TIMER_HOUR && |run| < MAX_SAMPLES
    requires Abs(at' - mono') <= SAMPLE_TIMEOUT && at' >= started && 0 <= consumed <= consumed' <= MAX_CONSUMED
    requires at >= started + DURATION ==> consumed' == consumed
    ensures longer == run + [(Observe, WatchSample(started, mono', at', consumed'))] && Accepted(longer, INVENTORY)
    ensures Final(longer) == Watched(started, WatchSample(started, mono', at', consumed'), |longer|)
  {
    TimerFromZero();
    longer := run + [(Observe, WatchSample(started, mono', at', consumed'))];
    assert longer[..|run|] == run;
  }

  /** One sample a minute, of a window that started with the activation. */
  lemma {:induction false} Steady(n: nat) returns (run: Run)
    requires 2 <= n <= 361
    ensures |run| == n && Accepted(run, INVENTORY)
    ensures Final(run) == Watched(60.0, WatchSample(60.0, 60.0 * (n - 1) as real, 60.0 * (n - 1) as real, 0), n)
    decreases n
  {
    if n == 2 {
      ActivatedAt(60.0);
      run := [(Before, FirstSample()), (After, WatchSample(60.0, 60.0, 60.0, 0))];
    } else {
      var shorter := Steady(n - 1);
      var k := (n - 2) as real;
      run := ObservedNext(shorter, 60.0, 60.0 * k, 60.0 * k, 0, 60.0 * (n - 1) as real, 60.0 * (n - 1) as real, 0);
    }
  }

  /** The watch reports completion with this run: its last sample completes it and none before. */
  ghost predicate ReportedComplete(run: Run) {
    Complete(Final(run)) && forall n :: 0 <= n < |run| ==> !Complete(Final(run[..n]))
  }

  /**
     The database's clock may step back by a few seconds.  Then a watch is reported complete although it took a
     charge two samples after one that was dated past the deadline.
     */
  lemma ChargeAfterStepBack() returns (run: Run)
    ensures |run| == 364 && Accepted(run, INVENTORY) && ReportedComplete(run)
    ensures run[361].1.canary.row.Some? && run[363].1.canary.row.Some?
    ensures run[361].1.canary.at >= run[361].1.canary.row.value.window.deadline
    ensures run[363].1.canary.row.value.consumed > run[361].1.canary.row.value.consumed
  {
    run := Steady(361);
    run := ObservedNext(run, 60.0, 21600.0, 21600.0, 0, 21656.0, 21661.0, 0);
    run := ObservedNext(run, 60.0, 21656.0, 21661.0, 0, 21660.0, 21655.0, 0);
    run := ObservedNext(run, 60.0, 21660.0, 21655.0, 0, 21661.0, 21660.0, 1);
    RunShape(run, INVENTORY);
    forall n | 0 <= n < |run| ensures !Complete(Final(run[..n])) {
      PrefixAccepted(run, n, INVENTORY);
      RunShape(run[..n], INVENTORY);
      if 2 <= n <= 362 {
        TimeGoesOn(run, n - 1, 361, INVENTORY);
        assert run[..n][1] == run[1] && run[..n][n - 1] == run[n - 1];
      }
    }
  }

  // ---------- the sleep schedule ----------

  /** How long `observe` sleeps, so many seconds after activation; past the grace it refuses. */
  function Delay(elapsed: real): Option<real> {
    if elapsed < DURATION then Some(if INTERVAL < DURATION - elapsed then INTERVAL else DURATION - elapsed)
    else if elapsed < DURATION + MAX_GAP then
      Some(if 1.0 < DURATION + MAX_GAP - elapsed then 1.0 else DURATION + MAX_GAP - elapsed)
    else None
  }

  /** One turn of the loop: the clock when the delay is chosen, and the sample taken after the sleep. */
  type Turn = (real, Sample)

  /** The clock never goes back and a sleep never ends early. */
  ghost predicate Timely(anchor: real, last: real, turns: seq<Turn>)
    decreases |turns|
  {
    turns == [] || (
      && turns[0].0 >= last
      && (Delay(turns[0].0 - anchor).Some? ==> turns[0].1.clock.mono >= turns[0].0 + Delay(turns[0].0 - anchor).value)
      && Timely(anchor, turns[0].1.clock.mono, turns[1..]))
  }

  function Least(a: real, b: real): real {
    if a < b then a else b
  }

  lemma {:induction false} TimelyAt(anchor: real, last: real, turns: seq<Turn>, i: nat)
    requires Timely(anchor, last, turns) && i < |turns|
    ensures Timely(anchor, if i == 0 then last else turns[i - 1].1.clock.mono, turns[i..])
    decreases i
  {
    if i > 0 {
      TimelyAt(anchor, turns[0].1.clock.mono, turns[1..], i - 1);
      assert turns[1..][i - 1..] == turns[i..];
    }
  }

  /**
     `observe` right after activation, on any clock readings and samples.  It reports completion only for a
     complete watch; and if it is stopped by the cap of 400 samples, then only after the six hours were over,
     with at least five samples left for the database to reach its deadline.
     */
  method ObserveWindow(timeline: Timeline, turns: seq<Turn>) returns (done: bool)
    requires timeline.Valid() && timeline.after.Some? && timeline.last == timeline.after && timeline.count == 2
    requires Timely(timeline.anchor.value, timeline.anchor.value, turns)
    modifies timeline
    ensures timeline.Valid() && timeline.last.Some? && timeline.anchor == old(timeline.anchor)
    ensures done ==> Complete(timeline.View())
    ensures timeline.count > 395 ==> timeline.last.value.clock.mono - timeline.anchor.value >= DURATION
  {
    var anchor := timeline.anchor.value;
    for i := 0 to |turns|
      invariant timeline.Valid() && timeline.after == old(timeline.after) && timeline.anchor == Some(anchor)
      invariant timeline.last.Some? && timeline.count == 2 + i
      invariant timeline.last.value.clock.mono == if i == 0 then anchor else turns[i - 1].1.clock.mono
      invariant timeline.last.value.clock.mono - anchor >= Least(DURATION, INTERVAL * i as real)
    {
      TimelyAt(anchor, anchor, turns, i);
      var now := turns[i].0;
      var delay := Delay(now - anchor);
      if delay.None? {
        return false;
      }
      assert turns[i..][0] == turns[i];
      var ok, complete := timeline.Accept(turns[i].1, Observe);
      if !ok {
        return false;
      }
      if complete {
        return true;
      }
    }
    done := false;
  }

  // ---------- the cap against the grace ----------

  /** When sample `k` of the run below is taken: every 55 seconds, at the end of the window, then every second. */
  function CapTime(k: nat): real {
    if k == 0 then 0.0
    else if k <= 393 then 60.0 + 55.0 * (k - 1) as real
    else 21660.0 + (k - 394) as real
  }

  /** The database runs five seconds behind, in a window that started five seconds after the activation. */
  function CapSample(k: nat): Sample {
    if k == 0 then FirstSample()
    else WatchSample(65.0, CapTime(k), if k == 1 then 65.0 else CapTime(k) - 5.0, 0)
  }

  lemma {:induction false} CapRun(n: nat) returns (run: Run)
    requires 2 <= n <= MAX_SAMPLES
    ensures |run| == n && Accepted(run, INVENTORY)
    ensures forall k :: 0 <= k < n ==> run[k].1 == CapSample(k)
    ensures Final(run) == Watched(65.0, CapSample(n - 1), n)
    decreases n
  {
    if n == 2 {
      ActivatedAt(65.0);
      run := [(Before, FirstSample()), (After, WatchSample(65.0, 60.0, 65.0, 0))];
    } else {
      var shorter := CapRun(n - 1);
      run := ObservedNext(shorter, 65.0, CapTime(n - 2), if n == 3 then 65.0 else CapTime(n - 2) - 5.0, 0,
                          CapTime(n - 1), CapTime(n - 1) - 5.0, 0);
    }
  }

  /** The turns of `observe` that take these samples, without a moment lost. */
  ghost function CapTurns(from: nat): (r: seq<Turn>)
    requires 2 <= from <= MAX_SAMPLES
    ensures |r| == MAX_SAMPLES - from && forall i :: 0 <= i < |r| ==> r[i] == (CapTime(from + i - 1), CapSample(from + i))
    decreases MAX_SAMPLES - from
  {
    if from == MAX_SAMPLES then [] else [(CapTime(from - 1), CapSample(from))] + CapTurns(from + 1)
  }

  lemma {:induction false} CapTurnsAreTimely(from: nat)
    requires 2 <= from <= MAX_SAMPLES
    ensures Timely(60.0, CapTime(from - 1), CapTurns(from))
    decreases MAX_SAMPLES - from
  {
    if from < MAX_SAMPLES {
      CapTurnsAreTimely(from + 1);
      assert CapTurns(from)[1..] == CapTurns(from + 1);
    }
  }

  /**
     A watch that follows the sleep schedule and is not complete when the cap refuses every further sample, with
     55 of its sixty seconds of grace left.
     */
  lemma CapCutsGrace() returns (run: Run)
    ensures |run| == MAX_SAMPLES && Accepted(run, INVENTORY)
    ensures forall n :: 0 <= n <= |run| ==> !Complete(Final(run[..n]))
    ensures Timely(60.0, 60.0, CapTurns(2)) && forall i :: 0 <= i < |run| - 2 ==> CapTurns(2)[i].1 == run[i + 2].1
    ensures run[|run| - 1].1.clock.mono - run[1].1.clock.mono == DURATION + MAX_GAP - 55.0
    ensures forall s, stage, inventory :: !Accepts(Final(run), s, stage, inventory)
  {
    run := CapRun(MAX_SAMPLES);
    CapTurnsAreTimely(2);
    forall n | 0 <= n <= |run| ensures !Complete(Final(run[..n])) {
      PrefixAccepted(run, n, INVENTORY);
      RunShape(run[..n], INVENTORY);
      if n >= 2 {
        assert run[..n][1] == run[1] && run[..n][n - 1] == run[n - 1];
      }
    }
  }
}
