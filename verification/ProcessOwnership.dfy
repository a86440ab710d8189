/**
 The process table as the operator's kernel keeps it, and what the owned processes may do to it between
 any two system calls of the operator: fork, exit, reap their own children, and reuse process ids.

 One process life is named by its pid and start ticks.  As the operator assumes when it takes that pair
 for a process identity, no two lives share it.
 */
module ProcessTable {
  import opened Prelude

  type Pid = nat
  type Ticks = nat
  type Identity = (Pid, Ticks)

  /** `order` numbers the forks; `parent` is the pid of the process that would be told of the exit. */
  datatype Process = Process(ticks: Ticks, parent: Pid, order: nat, zombie: bool)

  /** Everything alive or unreaped, by pid; `used` remembers the identity of every life. */
  datatype Kernel = Kernel(operator: Pid, table: map<Pid, Process>, used: set<Identity>, next: nat)

  predicate Present(k: Kernel, id: Identity) {
    id.0 in k.table && k.table[id.0].ticks == id.1
  }

  predicate Living(k: Kernel, id: Identity) {
    Present(k, id) && !k.table[id.0].zombie
  }

  predicate IsChild(k: Kernel, parent: Pid, pid: Pid) {
    pid in k.table && pid != k.operator && k.table[pid].parent == parent
  }

  predicate ValidEntry(k: Kernel, pid: Pid)
    requires pid in k.table
  {
    var p := k.table[pid];
    && (pid, p.ticks) in k.used && p.order < k.next
    && (pid != k.operator ==>
          p.parent in k.table && !k.table[p.parent].zombie && k.table[p.parent].order < p.order)
  }

  /** The operator is alive, and every other entry has a living parent that is older. */
  ghost predicate WellFormed(k: Kernel) {
    && k.operator in k.table && !k.table[k.operator].zombie
    && forall pid :: pid in k.table ==> ValidEntry(k, pid)
  }

  datatype EnvironmentEvent =
    | Fork(parent: Pid, pid: Pid, ticks: Ticks)
    | Exit(pid: Pid, heir: Pid)
    | ReapedByParent(pid: Pid)

  /** One event of the owned processes; an event that cannot happen changes nothing. */
  function Env(k: Kernel, e: EnvironmentEvent): Kernel {
    match e
    case Fork(parent, pid, ticks) =>
      if && parent in k.table && parent != k.operator && !k.table[parent].zombie
         && pid !in k.table && (pid, ticks) !in k.used
      then k.(table := k.table[pid := Process(ticks, parent, k.next, false)], used := k.used + {(pid, ticks)}, next := k.next + 1)
      else k
    case Exit(pid, heir) =>
      // Children are adopted by the operator or by an older living subreaper.
      if && pid in k.table && pid != k.operator && !k.table[pid].zombie
         && heir in k.table && !k.table[heir].zombie && k.table[heir].order < k.table[pid].order
      then k.(table := map p | p in k.table ::
                if p == pid then k.table[p].(zombie := true)
                else if IsChild(k, pid, p) then k.table[p].(parent := heir) else k.table[p])
      else k
    case ReapedByParent(pid) =>
      if pid in k.table && pid != k.operator && k.table[pid].zombie && k.table[pid].parent != k.operator
      then k.(table := k.table - {pid}) else k
  }

  function EnvAll(k: Kernel, batch: seq<EnvironmentEvent>): Kernel {
    if batch == [] then k else Env(EnvAll(k, batch[..|batch| - 1]), batch[|batch| - 1])
  }

  function Remove(k: Kernel, pid: Pid): Kernel {
    k.(table := k.table - {pid})
  }

  /** Lives are never resumed; a child of the operator stays its child for as long as it is in the table. */
  ghost predicate Later(k: Kernel, k': Kernel) {
    && k.operator == k'.operator && k.used <= k'.used
    && (forall pid :: pid in k'.table && (pid, k'.table[pid].ticks) in k.used ==> Present(k, (pid, k'.table[pid].ticks)))
    && (forall pid :: IsChild(k, k.operator, pid) && Present(k', (pid, k.table[pid].ticks)) ==>
          IsChild(k', k.operator, pid))
  }

  /** What the owned processes can do: also they never reap a child of the operator. */
  ghost predicate Interferes(k: Kernel, k': Kernel) {
    && Later(k, k')
    && forall pid :: IsChild(k, k.operator, pid) ==> Present(k', (pid, k.table[pid].ticks))
  }

  lemma ForkKeeps(k: Kernel, e: EnvironmentEvent)
    requires WellFormed(k) && e.Fork?
    ensures WellFormed(Env(k, e)) && Interferes(k, Env(k, e))
  {
    var k' := Env(k, e);
    forall pid | pid in k'.table ensures ValidEntry(k', pid) {
      if pid in k.table {
        assert ValidEntry(k, pid);
      }
    }
    assert forall pid :: pid in k.table ==> ValidEntry(k, pid);
  }

  lemma ExitKeeps(k: Kernel, e: EnvironmentEvent)
    requires WellFormed(k) && e.Exit?
    ensures WellFormed(Env(k, e)) && Interferes(k, Env(k, e))
  {
    var k' := Env(k, e);
    assert k'.table.Keys == k.table.Keys;
    forall pid | pid in k'.table ensures ValidEntry(k', pid) {
      assert ValidEntry(k, pid);
    }
  }

  lemma ReapedKeeps(k: Kernel, e: EnvironmentEvent)
    requires WellFormed(k) && e.ReapedByParent?
    ensures WellFormed(Env(k, e)) && Interferes(k, Env(k, e))
  {
    var k' := Env(k, e);
    forall pid | pid in k'.table ensures ValidEntry(k', pid) {
      assert ValidEntry(k, pid);
    }
  }

  lemma EnvKeeps(k: Kernel, e: EnvironmentEvent)
    requires WellFormed(k)
    ensures WellFormed(Env(k, e)) && Interferes(k, Env(k, e))
  {
    match e
    case Fork(_, _, _) => ForkKeeps(k, e);
    case Exit(_, _) => ExitKeeps(k, e);
    case ReapedByParent(_) => ReapedKeeps(k, e);
  }

  lemma RemoveChildKeeps(k: Kernel, pid: Pid)
    requires WellFormed(k) && IsChild(k, k.operator, pid) && k.table[pid].zombie
    ensures WellFormed(Remove(k, pid)) && Later(k, Remove(k, pid))
  {
    var k' := Remove(k, pid);
    forall p | p in k'.table ensures ValidEntry(k', p) {
      assert ValidEntry(k, p);
    }
  }

  lemma LaterTransitive(k0: Kernel, k1: Kernel, k2: Kernel)
    requires WellFormed(k0) && Later(k0, k1) && Later(k1, k2)
    ensures Later(k0, k2)
  {
    forall pid | IsChild(k0, k0.operator, pid) && Present(k2, (pid, k0.table[pid].ticks))
      ensures IsChild(k2, k0.operator, pid)
    {
      assert ValidEntry(k0, pid);
      assert Present(k1, (pid, k0.table[pid].ticks));
    }
  }

  lemma RemovalIsLater(k0: Kernel, k: Kernel, pid: Pid)
    requires WellFormed(k0) && Later(k0, k) && WellFormed(k) && IsChild(k, k.operator, pid) && k.table[pid].zombie
    ensures WellFormed(Remove(k, pid)) && Later(k0, Remove(k, pid))
  {
    RemoveChildKeeps(k, pid);
    LaterTransitive(k0, k, Remove(k, pid));
  }

  lemma InterferesTransitive(k0: Kernel, k1: Kernel, k2: Kernel)
    requires WellFormed(k0) && Interferes(k0, k1) && Interferes(k1, k2)
    ensures Interferes(k0, k2)
  {
    LaterTransitive(k0, k1, k2);
  }

  lemma {:induction false} EnvAllKeeps(k: Kernel, batch: seq<EnvironmentEvent>)
    requires WellFormed(k)
    ensures WellFormed(EnvAll(k, batch)) && Interferes(k, EnvAll(k, batch))
    decreases |batch|
  {
    if batch != [] {
      var middle := EnvAll(k, batch[..|batch| - 1]);
      EnvAllKeeps(k, batch[..|batch| - 1]);
      EnvKeeps(middle, batch[|batch| - 1]);
      InterferesTransitive(k, middle, EnvAll(k, batch));
    }
  }

  /** The operator alone: the owned processes are gone, so nothing can happen any more. */
  predicate Alone(k: Kernel) {
    k.table.Keys == {k.operator}
  }

  lemma {:induction false} AloneStaysAlone(k: Kernel, batch: seq<EnvironmentEvent>)
    requires WellFormed(k) && Alone(k)
    ensures EnvAll(k, batch) == k
    decreases |batch|
  {
    if batch != [] {
      AloneStaysAlone(k, batch[..|batch| - 1]);
      assert ValidEntry(k, k.operator);
    }
  }

  /** No direct child of the operator means no descendant at all, alive or unreaped. */
  lemma {:induction false} ChildlessMeansAlone(k: Kernel, pid: Pid)
    requires WellFormed(k) && forall p :: !IsChild(k, k.operator, p)
    ensures pid in k.table ==> pid == k.operator
    decreases if pid in k.table then k.table[pid].order else 0
  {
    if pid in k.table && pid != k.operator {
      assert ValidEntry(k, pid);
      ChildlessMeansAlone(k, k.table[pid].parent);
      assert IsChild(k, k.operator, pid);
    }
  }

  /** A set with all children of the operator and of its own members holds every process but the operator. */
  lemma {:induction false} ClosedSetIsAll(k: Kernel, seen: set<Pid>, pid: Pid)
    requires WellFormed(k) && pid in k.table && pid != k.operator
    requires forall parent, p :: (parent == k.operator || parent in seen) && IsChild(k, parent, p) ==> p in seen
    ensures pid in seen
    decreases k.table[pid].order
  {
    assert ValidEntry(k, pid);
    var parent := k.table[pid].parent;
    if parent != k.operator {
      ClosedSetIsAll(k, seen, parent);
    }
    assert IsChild(k, parent, pid);
  }

  /**
   The double read around opening a pidfd: when the pid shows the same start ticks before and after,
   the life that the pidfd was opened on in between has exactly that identity.
   */
  lemma SameTicksTwiceIsSameLife(k0: Kernel, k1: Kernel, k2: Kernel, id: Identity)
    requires WellFormed(k0) && Later(k0, k1) && Later(k1, k2)
    requires Present(k0, id) && Present(k2, id)
    ensures Present(k1, id)
  {
    assert ValidEntry(k0, id.0);
  }
}

/**
 Ownership of one dispatched command: `_Ownership`, `_drain`, and the ends of `execute` and
 `execute_retained_runtime`.  The schedule is what the owned processes do before each system call;
 when it runs out the call has not returned yet.
 */
module ProcessOwnership {
  import opened Prelude
  import opened ProcessTable

  const MAX_CHILDREN := 4096

  datatype Signal = Term | Kill

  /** A tracked pidfd: the life it was opened on, and the last signal sent through it. */
  datatype Owned = Owned(life: Identity, sent: Option<Signal>)

  /**
   What the operator did that must be justified: every wait that consumed a status, every signal with the
   life that got it and the identity it was meant for, and the moment it saw the permission to stop.
   */
  datatype Deed =
    | StatusByPopen(life: Identity)
    | StatusByWait(life: Identity)
    | Signalled(life: Identity, recorded: Identity)
    | PermissionSeen

  ghost predicate Justified(deed: Deed, leader: Identity) {
    match deed
    case StatusByPopen(life) => life == leader
    case StatusByWait(life) => life != leader
    case Signalled(life, recorded) => life == recorded
    case PermissionSeen => true
  }

  /** The leader is in the table as the operator's child exactly until its Popen has its status. */
  ghost predicate LeaderTracked(k: Kernel, leader: Identity, returncode: bool) {
    && leader.0 != k.operator && leader in k.used
    && (!returncode ==> IsChild(k, k.operator, leader.0) && Present(k, leader))
    && (returncode ==> !Present(k, leader))
  }

  lemma InterferenceKeepsLeader(k: Kernel, k': Kernel, leader: Identity, returncode: bool)
    requires LeaderTracked(k, leader, returncode) && Interferes(k, k')
    ensures LeaderTracked(k', leader, returncode)
  {
  }

  /** Each signal came after the permission to stop was seen. */
  ghost predicate SignalsFollowPermission(before: seq<Deed>, deeds: seq<Deed>) {
    forall i :: |before| <= i < |deeds| && deeds[i].Signalled? ==> PermittedBefore(before, deeds, i)
  }

  ghost predicate PermittedBefore(before: seq<Deed>, deeds: seq<Deed>, i: nat)
    requires i <= |deeds|
  {
    exists j :: |before| <= j < i && deeds[j].PermissionSeen?
  }

  ghost predicate Quiet(before: seq<Deed>, deeds: seq<Deed>) {
    before <= deeds && forall i :: |before| <= i < |deeds| ==> !deeds[i].Signalled?
  }

  ghost predicate PermittedAt(before: seq<Deed>, deeds: seq<Deed>, j: nat)
    requires j < |deeds|
  {
    deeds[j].PermissionSeen? && forall i :: |before| <= i < j ==> !deeds[i].Signalled?
  }

  /** No signal yet, or the permission is on record with no signal before it. */
  ghost predicate SignalsWait(before: seq<Deed>, deeds: seq<Deed>, permitted: bool) {
    && before <= deeds
    && if permitted then exists j :: |before| <= j < |deeds| && PermittedAt(before, deeds, j) else Quiet(before, deeds)
  }

  lemma RecordStays(before: seq<Deed>, mid: seq<Deed>, deeds: seq<Deed>, permitted: bool)
    requires SignalsWait(before, mid, permitted) && mid <= deeds && (!permitted ==> Quiet(mid, deeds))
    ensures SignalsWait(before, deeds, permitted)
  {
    if permitted {
      var j :| |before| <= j < |mid| && PermittedAt(before, mid, j);
      assert PermittedAt(before, deeds, j);
    }
  }

  lemma WaitingMeansFollowing(before: seq<Deed>, deeds: seq<Deed>, permitted: bool)
    requires SignalsWait(before, deeds, permitted)
    ensures SignalsFollowPermission(before, deeds)
  {
    if permitted {
      var j :| |before| <= j < |deeds| && PermittedAt(before, deeds, j);
    }
  }

  /** What a walk has met so far is filed, and has no children that are not met or still to come. */
  ghost predicate Walked(k: Kernel, filed: set<Identity>, seen: set<Pid>, todo: set<Pid>) {
    && k.operator !in seen + todo
    && (forall pid :: pid in seen ==> pid in k.table && (pid, k.table[pid].ticks) in filed)
    && (forall pid :: pid in todo ==> pid in k.table)
    && forall parent, p :: (parent == k.operator || parent in seen) && IsChild(k, parent, p) ==> p in seen + todo
  }

  lemma WalkedFurther(k: Kernel, filed: set<Identity>, filed': set<Identity>, seen: set<Pid>, todo: set<Pid>,
                      pid: Pid, below: set<Pid>)
    requires Walked(k, filed, seen, todo) && pid in todo && filed <= filed' && (pid, k.table[pid].ticks) in filed'
    requires forall p :: p in below <==> IsChild(k, pid, p)
    ensures Walked(k, filed', seen + {pid}, todo - {pid} + below - (seen + {pid}))
  {
  }

  lemma WalkedIsAll(k: Kernel, filed: set<Identity>, seen: set<Pid>)
    requires WellFormed(k) && Walked(k, filed, seen, {})
    ensures forall pid :: pid in k.table && pid != k.operator ==> (pid, k.table[pid].ticks) in filed
  {
    forall pid | pid in k.table && pid != k.operator ensures (pid, k.table[pid].ticks) in filed {
      ClosedSetIsAll(k, seen, pid);
    }
  }

  class Operator {
    var k: Kernel
    const leader: Identity
    const fdLimit: nat
    var returncode: bool                      // the leader's Popen has its status
    var entries: map<Identity, Owned>
    var reaped: set<Identity>
    var schedule: seq<seq<EnvironmentEvent>>
    ghost var deeds: seq<Deed>

    /** A tracked pidfd holds the identity it is filed under; another life had the leader's pid only after it. */
    ghost predicate ValidEntries()
      reads this
    {
      forall key :: key in entries ==>
        entries[key].life == key && (key != leader && key.0 == leader.0 ==> returncode)
    }

    ghost predicate Valid()
      reads this
    {
      && WellFormed(k) && LeaderTracked(k, leader, returncode) && ValidEntries()
      && forall i :: 0 <= i < |deeds| ==> Justified(deeds[i], leader)
    }

    /** The operator's state after any of its own steps: nothing is resumed or forgotten. */
    twostate predicate Onward()
      reads this
    {
      && Valid() && Later(old(k), k) && |schedule| <= |old(schedule)| && old(deeds) <= deeds
      && (old(returncode) ==> returncode)
    }

    /** Once the owned processes do nothing any more, the process table stays as it is. */
    twostate predicate Rests()
      reads this
    {
      old(schedule) == [] ==> schedule == [] && k == old(k)
    }

    /** A zombie that only the operator can reap. */
    ghost predicate ZombieChild(pid: Pid)
      reads this
    {
      IsChild(k, k.operator, pid) && k.table[pid].zombie
    }

    /** Every process but the operator is filed under its identity. */
    ghost predicate AllFiled()
      reads this
    {
      forall pid :: pid in k.table && pid != k.operator ==> (pid, k.table[pid].ticks) in entries
    }

    /** Nothing was signalled since the deeds were `before`. */
    ghost predicate NoSignals(before: seq<Deed>)
      reads this
    {
      Quiet(before, deeds)
    }

    /** Right after the dispatch: the leader is the operator's only child. */
    constructor (leader: Identity, operator: Identity, fdLimit: nat, schedule: seq<seq<EnvironmentEvent>>)
      requires leader.0 != operator.0
      ensures Valid() && !returncode && entries == map[] && deeds == []
    {
      this.leader, this.fdLimit := leader, fdLimit;
      k := Kernel(operator.0, map[operator.0 := Process(operator.1, operator.0, 0, false),
                                  leader.0 := Process(leader.1, operator.0, 1, false)], {operator, leader}, 2);
      returncode, entries, reaped, this.schedule := false, map[], {}, schedule;
      deeds := [];
    }

    // ---------- system calls ----------

    /** The owned processes run. */
    method Interfere()
      requires Valid()
      modifies this`k, this`schedule
      ensures Onward() && Interferes(old(k), k) && Rests()
      ensures old(Alone(k)) ==> k == old(k)
    {
      if schedule != [] {
        if Alone(k) {
          AloneStaysAlone(k, schedule[0]);
        }
        EnvAllKeeps(k, schedule[0]);
        InterferenceKeepsLeader(k, EnvAll(k, schedule[0]), leader, returncode);
        k := EnvAll(k, schedule[0]);
        schedule := schedule[1..];
      }
    }

    /** `/proc/<pid>/stat`: the start ticks of whatever has the pid now. */
    method ReadIdentity(pid: Pid) returns (ticks: Option<Ticks>)
      requires Valid()
      modifies this`k, this`schedule
      ensures Onward() && Rests()
      ensures ticks == if pid in k.table then Some(k.table[pid].ticks) else None
    {
      Interfere();
      ticks := if pid in k.table then Some(k.table[pid].ticks) else None;
    }

    /** The life the new pidfd refers to, when the pid is in use. */
    method PidfdOpen(pid: Pid) returns (life: Option<Identity>)
      requires Valid()
      modifies this`k, this`schedule
      ensures Onward() && Rests()
      ensures life == if pid in k.table then Some((pid, k.table[pid].ticks)) else None
    {
      Interfere();
      life := if pid in k.table then Some((pid, k.table[pid].ticks)) else None;
    }

    /** A pidfd is readable once its process exited. */
    method Alive(life: Identity) returns (alive: bool)
      requires Valid()
      modifies this`k, this`schedule
      ensures Onward() && Rests() && (alive <==> Living(k, life))
      ensures old(Alone(k)) ==> k == old(k)
    {
      Interfere();
      alive := Living(k, life);
    }

    /** `waitpid(pid, WNOHANG)` by the operator: reaps a zombie child with that pid. */
    method Wait(pid: Pid) returns (found: bool)
      requires Valid() && (pid == leader.0 ==> returncode)
      modifies this`k, this`schedule, this`deeds
      ensures Onward() && NoSignals(old(deeds))
      ensures old(schedule) == [] ==>
                && schedule == [] && found == old(ZombieChild(pid))
                && k == if found then Remove(old(k), pid) else old(k)
    {
      Interfere();
      found := IsChild(k, k.operator, pid) && k.table[pid].zombie;
      if found {
        var life := (pid, k.table[pid].ticks);
        RemovalIsLater(old(k), k, pid);
        assert life != leader;
        k := Remove(k, pid);
        deeds := deeds + [StatusByWait(life)];
      }
    }

    /** `Popen.poll` of the leader. */
    method Poll()
      requires Valid()
      modifies this`k, this`schedule, this`deeds, this`returncode
      ensures Onward() && NoSignals(old(deeds))
    {
      Interfere();
      if !returncode && k.table[leader.0].zombie {
        RemovalIsLater(old(k), k, leader.0);
        k := Remove(k, leader.0);
        deeds := deeds + [StatusByPopen(leader)];
        returncode := true;
      }
    }

    /** The children of `pid`'s process, as `/proc` lists them; for the operator, none means nothing is left. */
    method Children(pid: Pid) returns (pids: set<Pid>)
      requires Valid()
      modifies this`k, this`schedule
      ensures Onward() && Rests()
      ensures forall p :: p in pids <==> IsChild(k, pid, p)
      ensures pid == k.operator && pids == {} ==> Alone(k)
    {
      Interfere();
      pids := set p | p in k.table && IsChild(k, pid, p);
      if pid == k.operator && pids == {} {
        forall p ensures !IsChild(k, k.operator, p) {
          assert p !in pids;
        }
        forall p | p in k.table ensures p == k.operator {
          ChildlessMeansAlone(k, p);
        }
      }
    }

    /** After the pid showed `ticks` at `first`: a pidfd, kept only if the pid still shows them. */
    method OpenSince(pid: Pid, ticks: Ticks, ghost first: Kernel) returns (life: Option<Identity>)
      requires Valid() && WellFormed(first) && Later(first, k) && Present(first, (pid, ticks))
      modifies this`k, this`schedule
      ensures Onward() && Rests() && life in {None, Some((pid, ticks))}
      ensures old(schedule) == [] && old(Present(k, (pid, ticks))) ==> life.Some?
      ensures life.Some? && life.value != leader && pid == leader.0 ==> returncode
    {
      life := PidfdOpen(pid);
      if life.None? {
        return;
      }
      ghost var second := k;
      LaterTransitive(first, old(k), second);
      var again := ReadIdentity(pid);
      LaterTransitive(old(k), second, k);
      if again != Some(ticks) {
        return None;
      }
      SameTicksTwiceIsSameLife(first, second, k, (pid, ticks));
    }

    method Send(key: Identity, value: Signal)
      requires Valid() && key in entries
      modifies this`entries, this`deeds
      ensures Onward() && entries.Keys == old(entries).Keys
    {
      var entry := entries[key];
      if entry.sent != Some(value) && entry.sent != Some(Kill) {
        deeds := deeds + [Signalled(entry.life, key)];
        entries := entries[key := entry.(sent := Some(value))];
      }
    }

    // ---------- `_Ownership` ----------

    /** What every longer operation keeps. */
    twostate predicate Keeps()
      reads this
    {
      && Valid() && |schedule| <= |old(schedule)| && old(deeds) <= deeds && k.operator == old(k).operator
      && (old(returncode) ==> returncode)
    }

    /** Files a pidfd under the pid and ticks that were read before it was opened, within the descriptor limit. */
    method Track(pid: Pid) returns (known: bool, refused: bool)
      requires Valid()
      modifies this`k, this`schedule, this`entries
      ensures Keeps() && Rests() && old(entries).Keys <= entries.Keys
      ensures old(schedule) == [] && !refused && pid in k.table ==> known && (pid, k.table[pid].ticks) in entries
      ensures known ==> exists key :: key in entries && key.0 == pid
    {
      known, refused := false, false;
      var ticks := ReadIdentity(pid);
      if ticks.None? {
        return;
      }
      var key := (pid, ticks.value);
      if key in entries {
        return true, false;
      }
      if |entries| >= fdLimit {
        return false, true;
      }
      var life := OpenSince(pid, ticks.value, k);
      if life.Some? {
        entries := entries[key := Owned(life.value, None)];
        return true, false;
      }
    }

    /** Forgets an identity only when it is reaped or gone, never one that may still be adopted. */
    method RetireOne(key: Identity)
      requires Valid() && key in entries && key != leader
      modifies this`k, this`schedule, this`entries, this`reaped
      ensures Keeps() && Rests() && old(entries).Keys - {key} <= entries.Keys
    {
      var alive := Alive(entries[key].life);
      if !alive {
        var ticks := ReadIdentity(key.0);
        if key in reaped || ticks != Some(key.1) {
          entries := entries - {key};
          reaped := reaped - {key};
        }
      }
    }

    method Retire()
      requires Valid()
      modifies this`k, this`schedule, this`entries, this`reaped
      ensures Keeps() && Rests()
    {
      var todo := entries.Keys - {leader};
      while todo != {}
        invariant Keeps() && Rests() && todo <= entries.Keys && leader !in todo
        decreases |todo|
      {
        var key :| key in todo;
        todo := todo - {key};
        RetireOne(key);
      }
    }

    /** One step of the walk: the process is tracked and its children are added. */
    method WalkOne(pid: Pid, seen: set<Pid>, todo: set<Pid>) returns (ok: bool, todo': set<Pid>)
      requires Valid() && pid in todo && seen !! todo
      modifies this`k, this`schedule, this`entries
      ensures Keeps() && Rests() && seen + {pid} !! todo'
      ensures ok && old(schedule) == [] && old(Walked(k, entries.Keys, seen, todo)) ==>
                Walked(k, entries.Keys, seen + {pid}, todo')
    {
      todo' := todo - {pid};
      var known, refused := Track(pid);
      ok := !refused;
      if known {
        var below := Children(pid);
        todo' := todo - {pid} + below - (seen + {pid});
        if old(schedule) == [] && ok && Walked(k, old(entries).Keys, seen, todo) {
          WalkedFurther(k, old(entries).Keys, entries.Keys, seen, todo, pid, below);
        }
      }
    }

    /** Walks all descendants through `/proc`, a bounded number, and tracks each. */
    method Walk() returns (ok: bool)
      requires Valid()
      modifies this`k, this`schedule, this`entries
      ensures Keeps() && Rests()
      ensures ok && old(schedule) == [] ==> AllFiled()
    {
      var seen: set<Pid> := {};
      var todo := Children(k.operator);
      while todo != {}
        invariant Keeps() && Rests() && seen !! todo && |seen| <= MAX_CHILDREN
        invariant old(schedule) == [] ==> Walked(k, entries.Keys, seen, todo)
        decreases MAX_CHILDREN - |seen|
      {
        if |seen| == MAX_CHILDREN {
          return false;
        }
        var pid :| pid in todo;
        ok, todo := WalkOne(pid, seen, todo);
        if !ok {
          return;
        }
        seen := seen + {pid};
      }
      ok := true;
      if old(schedule) == [] {
        WalkedIsAll(k, entries.Keys, seen);
      }
    }

    /** Discovery.  When the owned processes do nothing more, success means that every one of them is filed. */
    method Capture() returns (ok: bool)
      requires Valid()
      modifies this`k, this`schedule, this`entries, this`reaped, this`returncode, this`deeds
      ensures Keeps() && NoSignals(old(deeds))
      ensures ok && old(schedule) == [] ==> AllFiled()
    {
      Poll();
      Retire();
      ok := Walk();
    }

    method ReapOne(key: Identity)
      requires Valid() && key in entries && key != leader
      modifies this`k, this`schedule, this`reaped, this`deeds
      ensures Keeps() && NoSignals(old(deeds)) && entries == old(entries)
      ensures old(schedule) == [] ==> schedule == [] && !ZombieChild(key.0)
      ensures old(schedule) == [] ==> forall pid :: ZombieChild(pid) ==> old(ZombieChild(pid))
    {
      var found := Wait(key.0);
      if found {
        reaped := reaped + {key};
      }
    }

    /** Adopted children, one by one. */
    method ReapTracked()
      requires Valid()
      modifies this`k, this`schedule, this`reaped, this`deeds
      ensures Keeps() && NoSignals(old(deeds)) && entries == old(entries)
      ensures old(schedule) == [] ==>
                schedule == [] && forall key :: key in entries && key != leader && key !in old(reaped) ==> !ZombieChild(key.0)
    {
      var todo := entries.Keys - {leader} - reaped;
      while todo != {}
        invariant Keeps() && NoSignals(old(deeds)) && entries == old(entries) && todo <= entries.Keys && leader !in todo
        invariant old(schedule) == [] ==> schedule == []
        invariant old(schedule) == [] ==> forall key :: key in entries.Keys - {leader} - old(reaped) - todo ==> !ZombieChild(key.0)
        decreases |todo|
      {
        var key :| key in todo;
        todo := todo - {key};
        ReapOne(key);
      }
    }

    /**
     Popen sees its own leader first; adopted children are then reaped one by one.  When the owned processes do
     nothing more, no tracked child is left a zombie.
     */
    method Reap()
      requires Valid()
      modifies this`k, this`schedule, this`entries, this`reaped, this`returncode, this`deeds
      ensures Keeps() && NoSignals(old(deeds))
      ensures old(schedule) == [] ==>
                forall key :: key in old(entries) && key != leader && key !in old(reaped) ==> !ZombieChild(key.0)
    {
      Poll();
      ReapTracked();
      Retire();
    }

    method AnyLiving() returns (some: bool)
      requires Valid()
      modifies this`k, this`schedule
      ensures Keeps()
      ensures old(Alone(k)) ==> k == old(k)
    {
      var todo := entries.Keys;
      some := false;
      while todo != {}
        invariant Keeps() && todo <= entries.Keys
        invariant old(Alone(k)) ==> k == old(k)
        decreases |todo|
      {
        var key :| key in todo;
        todo := todo - {key};
        var alive := Alive(entries[key].life);
        some := some || alive;
      }
    }

    /** One signal to every tracked identity that is still alive. */
    method SignalLiving(value: Signal)
      requires Valid()
      modifies this`k, this`schedule, this`entries, this`deeds
      ensures Keeps()
    {
      var todo := entries.Keys;
      while todo != {}
        invariant Keeps() && todo <= entries.Keys
        decreases |todo|
      {
        var key :| key in todo;
        todo := todo - {key};
        var alive := Alive(entries[key].life);
        if alive {
          Send(key, value);
        }
      }
    }

    // ---------- closing ----------

    /** Nothing of the command is left, alive or unreaped, and the leader's status is known. */
    ghost predicate Closed()
      reads this
    {
      Alone(k) && returncode
    }

    /** A signal through a descriptor opened on `life`, meant for the identity that was read before. */
    method SignalChild(key: Identity, life: Identity, value: Signal)
      requires Valid() && life == key
      modifies this`k, this`schedule, this`entries, this`deeds
      ensures Keeps()
    {
      if key in entries {
        Send(key, value);
      } else {
        deeds := deeds + [Signalled(life, key)];
      }
    }

    /** One direct child met by `_drain`: signalled by checked identity, and reaped unless it is the leader. */
    method DrainChild(pid: Pid, signalling: bool, value: Signal)
      requires Valid()
      modifies this`k, this`schedule, this`entries, this`deeds, this`returncode
      ensures Keeps()
    {
      var originalLeader := pid == leader.0 && !returncode;
      if originalLeader {
        Poll();
        if returncode {
          return;
        }
      }
      var ticks := ReadIdentity(pid);
      if ticks.None? {
        return;
      }
      var life := OpenSince(pid, ticks.value, k);
      if life.None? {
        return;
      }
      if signalling {
        SignalChild((pid, ticks.value), life.value, value);
      }
      if !originalLeader {
        var _ := Wait(pid);
      }
    }

    /**
     `_drain`: keeps ownership round after round.  It returns true only with everything closed; false
     means that the schedule ended while it still held on.
     */
    method Drain(values: seq<Signal>) returns (done: bool)
      requires Valid()
      modifies this`k, this`schedule, this`entries, this`deeds, this`returncode
      ensures Keeps() && (done ==> Closed())
    {
      var round := 0;
      while round < |values|
        invariant Keeps() && round <= |values|
      {
        Poll();
        SignalLiving(values[round]);
        var todo := Children(k.operator);
        while todo != {}
          invariant Keeps()
          decreases |todo|
        {
          var pid :| pid in todo;
          todo := todo - {pid};
          DrainChild(pid, round == 0 || values[round].Kill?, values[round]);
        }
        Poll();
        var left := Children(k.operator);
        if left == {} && returncode {
          var living := AnyLiving();
          if !living {
            return true;
          }
        }
        round := round + 1;
      }
      return false;
    }

    /** Discovery, and reaping if it succeeds. */
    method Discover() returns (ok: bool)
      requires Valid()
      modifies this`k, this`schedule, this`entries, this`reaped, this`returncode, this`deeds
      ensures Keeps() && NoSignals(old(deeds))
    {
      ok := Capture();
      if ok {
        Reap();
      }
    }

    /** One turn of the loop of `execute`; it is over on a failed discovery and when the command looks closed. */
    method Turn(stop: Option<Signal>) returns (over: bool)
      requires Valid()
      modifies this`k, this`schedule, this`entries, this`reaped, this`returncode, this`deeds
      ensures Keeps()
    {
      var ok := Discover();
      if !ok {
        return true;
      }
      if stop.Some? {
        SignalLiving(stop.value);
      }
      ok := Discover();
      if !ok {
        return true;
      }
      var living := AnyLiving();
      var left := Children(k.operator);
      over := returncode && !living && left == {};
    }

    /**
     `execute` after its dispatch: discovery, reaping and signals until the command looks closed or
     something fails, and in every case the drain.  A result is returned only when nothing is left.
     */
    method Execute(stops: seq<Option<Signal>>, drains: seq<Signal>) returns (result: bool)
      requires Valid()
      modifies this`k, this`schedule, this`entries, this`reaped, this`returncode, this`deeds
      ensures Keeps() && (result ==> Closed())
    {
      var turn := 0;
      while turn < |stops|
        invariant Keeps() && turn <= |stops|
      {
        var over := Turn(stops[turn]);
        if over {
          break;
        }
        turn := turn + 1;
      }
      result := Drain(drains);
    }

    /** `physically_closed`: passive adoption and reaping only, never a signal. */
    method PhysicallyClosed() returns (closed: bool)
      requires Valid()
      modifies this`k, this`schedule, this`deeds, this`returncode
      ensures Keeps() && (closed ==> Closed())
      ensures NoSignals(old(deeds))
    {
      Poll();
      var todo := Children(k.operator);
      while todo != {}
        invariant Keeps() && NoSignals(old(deeds))
        decreases |todo|
      {
        var pid :| pid in todo;
        todo := todo - {pid};
        if pid != leader.0 || returncode {
          var _ := Wait(pid);
        }
      }
      if !returncode {
        return false;
      }
      var left := Children(k.operator);
      if left != {} {
        return false;
      }
      var living := AnyLiving();
      return !living;
    }

    /** One look at the permission pipe. */
    method ObservePermission(permitted: bool, observed: bool, ghost before: seq<Deed>) returns (now: bool)
      requires Valid() && SignalsWait(before, deeds, permitted)
      modifies this`deeds
      ensures Keeps() && now == (permitted || observed) && SignalsWait(before, deeds, now)
    {
      now := permitted || observed;
      if observed && !permitted {
        deeds := deeds + [PermissionSeen];
        assert PermittedAt(before, deeds, |deeds| - 1);
      }
    }

    /**
     `execute_retained_runtime` after its dispatch: discovery and passive reaping until the runtime closed by
     itself or stopping is permitted, and then the barrier that every path crosses, which drains only once
     permitted.  A result is returned only when nothing is left, and every signal came after the permission.
     */
    method ExecuteRetained(observed: seq<bool>, drains: seq<Signal>) returns (result: bool)
      requires Valid()
      modifies this`k, this`schedule, this`entries, this`reaped, this`returncode, this`deeds
      ensures Keeps() && (result ==> Closed())
      ensures SignalsFollowPermission(old(deeds), deeds)
      ensures true !in observed ==> NoSignals(old(deeds))
    {
      var permitted, turn := false, 0;
      var going := Capture();
      while going && turn < |observed| && !permitted
        invariant Keeps() && turn <= |observed| && SignalsWait(old(deeds), deeds, permitted)
        invariant permitted ==> true in observed
        decreases |observed| - turn
      {
        permitted := ObservePermission(permitted, observed[turn], old(deeds));
        turn := turn + 1;
        ghost var mid := deeds;
        going := RetainedTurn();
        RecordStays(old(deeds), mid, deeds, permitted);
      }
      while turn < |observed|
        invariant Keeps() && turn <= |observed| && SignalsWait(old(deeds), deeds, permitted)
        invariant permitted ==> true in observed
        decreases |observed| - turn
      {
        ghost var start := deeds;
        var closed := PhysicallyClosed();
        RecordStays(old(deeds), start, deeds, permitted);
        if closed {
          WaitingMeansFollowing(old(deeds), deeds, permitted);
          return true;
        }
        permitted := ObservePermission(permitted, observed[turn], old(deeds));
        turn := turn + 1;
        if permitted {
          ghost var mid := deeds;
          var _ := Drain(drains);
          RecordStays(old(deeds), mid, deeds, permitted);
        }
      }
      ghost var last := deeds;
      result := PhysicallyClosed();
      RecordStays(old(deeds), last, deeds, permitted);
      WaitingMeansFollowing(old(deeds), deeds, permitted);
    }

    /** Discovery, reaping and the passive look; the loop goes on unless discovery fails or all is closed. */
    method RetainedTurn() returns (going: bool)
      requires Valid()
      modifies this`k, this`schedule, this`entries, this`reaped, this`returncode, this`deeds
      ensures Keeps() && NoSignals(old(deeds))
    {
      going := Discover();
      if going {
        var closed := PhysicallyClosed();
        going := !closed;
      }
    }
  }
}
