/**
 Stopping the private container runtime: the controller's `permit_runtime_stop` and `contain`, and the
 runtime worker's `execute_retained_runtime`, joined by one permission pipe.  Any of them, the daemon
 and the daemon's worker may die or fail between any two events.
 */
module RuntimeStop {
  import opened Prelude

  type Byte = nat
  type Bytes = seq<Byte>

  const READ_LIMIT := 129
  const PERMISSION_LIMIT := 128

  // ---------- the permission reader ----------

  /** What the runtime worker has read from the permission pipe. */
  datatype Reader = Reader(permission: Bytes, eof: bool, invalid: bool, permitted: bool, interrupted: bool)

  const NothingRead := Reader([], false, false, false, false)

  /** One read: None when it would block, empty at the end of the stream. */
  function Observe(r: Reader, token: Bytes, raw: Option<Bytes>): Reader {
    if r.eof || raw.None? then r
    else if raw.value == [] then
      var permitted := !r.invalid && r.permission == token;
      r.(eof := true, permitted := permitted, interrupted := r.interrupted || !permitted)
    else if |r.permission| + |raw.value| > PERMISSION_LIMIT then r.(invalid := true)
    else r.(permission := r.permission + raw.value)
  }

  function ObserveAll(r: Reader, token: Bytes, chunks: seq<Bytes>): Reader {
    if chunks == [] then r
    else Observe(ObserveAll(r, token, chunks[..|chunks| - 1]), token, Some(chunks[|chunks| - 1]))
  }

  function Flatten(chunks: seq<Bytes>): Bytes {
    if chunks == [] then [] else Flatten(chunks[..|chunks| - 1]) + chunks[|chunks| - 1]
  }

  lemma {:induction false} ReaderKeepsStream(token: Bytes, chunks: seq<Bytes>)
    requires forall k :: 0 <= k < |chunks| ==> chunks[k] != []
    ensures var r := ObserveAll(NothingRead, token, chunks);
            && !r.eof && !r.permitted && !r.interrupted
            && (r.invalid ==> |Flatten(chunks)| > PERMISSION_LIMIT)
            && (!r.invalid ==> r.permission == Flatten(chunks) && |r.permission| <= PERMISSION_LIMIT)
            && |r.permission| <= |Flatten(chunks)|
    decreases |chunks|
  {
    if chunks != [] {
      ReaderKeepsStream(token, chunks[..|chunks| - 1]);
    }
  }

  /** However the reads cut the stream, permission holds exactly when the whole stream is the token. */
  lemma PermittedIffStreamIsToken(token: Bytes, chunks: seq<Bytes>)
    requires 1 <= |token| <= PERMISSION_LIMIT
    requires forall k :: 0 <= k < |chunks| ==> chunks[k] != []
    ensures ObserveAll(NothingRead, token, chunks + [[]]).permitted <==> Flatten(chunks) == token
    ensures ObserveAll(NothingRead, token, chunks + [[]]).interrupted <==> Flatten(chunks) != token
  {
    ReaderKeepsStream(token, chunks);
    assert (chunks + [[]])[..|chunks|] == chunks;
  }

  // ---------- the actors ----------

  /** Where the controller is: still starting actors, or somewhere in `permit_runtime_stop`. */
  datatype Step = Starting | Stopping | Checked | IntentSaved | TokenWritten

  /** `spawned`: the daemon worker is in `workers`; `bound`: the pidfd of the daemon it started is held. */
  datatype Controller = Controller(
    alive: bool, step: Step, spawned: bool, bound: bool, reaped: bool, intentExists: bool, stopSent: bool, closed: bool)

  datatype ExitRecord = ExitRecord(started: bool, closed: bool)

  /** The daemon, whatever it forked, and the worker process that ran it and records its end. */
  datatype Daemon = Daemon(
    started: bool, exited: bool, descendants: bool, workerExited: bool, record: Option<ExitRecord>)

  /** `pending` is written and not yet read; `written` and `consumed` are the streams since the start. */
  datatype Pipe = Pipe(pending: Bytes, written: Bytes, consumed: Bytes)

  datatype Runtime = Runtime(started: bool, signalled: bool, reader: Reader)

  datatype State = State(controller: Controller, daemon: Daemon, pipe: Pipe, runtime: Runtime)

  const Init := State(
    Controller(true, Starting, false, false, false, false, false, false),
    Daemon(false, false, false, false, None), Pipe([], [], []), Runtime(false, false, NothingRead))

  datatype ControllerEvent =
    | SpawnDaemon | BindDaemon | ReapDaemonWorker | EnterStop | CheckStop | SaveIntent
    | WriteToken(written: nat) | CloseTokenPipe | ControllerFails | ControllerDies

  datatype DaemonEvent = DaemonStarts | DaemonForks | DaemonExits | DescendantsEnd | WorkerRecords | WorkerExits

  datatype RuntimeEvent = StartRuntime | ReadPermission(count: nat) | SignalRuntime

  datatype Event =
    | ByController(controller: ControllerEvent)
    | ByDaemon(daemon: DaemonEvent)
    | ByRuntime(runtime: RuntimeEvent)

  /** No write end is left: the controller closed its own, or died with it. */
  predicate WriteEndClosed(c: Controller) {
    c.closed || !c.alive
  }

  /** The conditions that `permit_runtime_stop` checks before it saves the intent. */
  predicate StopAllowed(c: Controller, d: Daemon) {
    && (c.bound || !c.spawned)
    && (c.bound ==> d.exited)
    && (c.spawned ==> c.reaped && d.workerExited && d.record == Some(ExitRecord(true, true)))
    && !c.closed && !c.stopSent
  }

  function NextController(c: Controller, d: Daemon, e: ControllerEvent): Option<Controller> {
    if !c.alive then None
    else match e
      case SpawnDaemon => if c.step.Starting? && !c.spawned then Some(c.(spawned := true)) else None
      case BindDaemon => if c.step.Starting? && c.spawned && d.started then Some(c.(bound := true)) else None
      case ReapDaemonWorker => if c.spawned && d.workerExited then Some(c.(reaped := true)) else None
      case EnterStop => if c.step.Starting? then Some(c.(step := Stopping)) else None
      case CheckStop => if c.step.Stopping? && StopAllowed(c, d) then Some(c.(step := Checked)) else None
      case SaveIntent =>
        // The artifact is created exclusively.
        if c.step.Checked? && !c.intentExists then Some(c.(step := IntentSaved, intentExists := true)) else None
      case WriteToken(_) => if c.step.IntentSaved? then Some(c.(step := TokenWritten)) else None
      case CloseTokenPipe => if c.stopSent then Some(c.(step := Stopping, closed := true)) else None
      // Any error lands in `contain`, which may call `permit_runtime_stop` again.
      case ControllerFails => Some(c.(step := Stopping))
      case ControllerDies => Some(c.(alive := false))
  }

  function NextDaemon(c: Controller, d: Daemon, e: DaemonEvent): Option<Daemon> {
    if !c.spawned then None
    else match e
      case DaemonStarts => if !d.workerExited && !d.started && d.record.None? then Some(d.(started := true)) else None
      case DaemonForks => if d.started && (!d.exited || d.descendants) then Some(d.(descendants := true)) else None
      case DaemonExits => if d.started then Some(d.(exited := true)) else None
      case DescendantsEnd => Some(d.(descendants := false))
      case WorkerRecords =>
        // The worker's own command returned, so nothing that it started is left.
        if !d.workerExited && d.record.None? && (d.started ==> d.exited) && !d.descendants
        then Some(d.(record := Some(ExitRecord(d.started, true)))) else None
      case WorkerExits => Some(d.(workerExited := true))
  }

  /** A short write is an error for the controller, but the bytes it wrote stay in the pipe. */
  function WriteToPipe(p: Pipe, token: Bytes, count: nat): Pipe
    requires count <= |token|
  {
    p.(pending := p.pending + token[..count], written := p.written + token[..count])
  }

  function NextRuntime(c: Controller, p: Pipe, r: Runtime, token: Bytes, e: RuntimeEvent): Option<(Pipe, Runtime)> {
    match e
    case StartRuntime =>
      if !r.reader.permitted && !r.reader.interrupted then Some((p, r.(started := true))) else None
    case ReadPermission(count) =>
      if r.reader.eof then None
      else if p.pending == [] then
        if WriteEndClosed(c) then Some((p, r.(reader := Observe(r.reader, token, Some([]))))) else None
      else if 1 <= count <= READ_LIMIT && count <= |p.pending| then
        Some((p.(pending := p.pending[count..], consumed := p.consumed + p.pending[..count]),
              r.(reader := Observe(r.reader, token, Some(p.pending[..count])))))
      else None
    case SignalRuntime =>
      if r.started && r.reader.permitted then Some((p, r.(signalled := true))) else None
  }

  function Next(s: State, token: Bytes, e: Event): Option<State> {
    match e
    case ByController(ce) =>
      var c := NextController(s.controller, s.daemon, ce);
      if c.None? then None
      else if !ce.WriteToken? then Some(s.(controller := c.value))
      else if ce.written > |token| then None
      else
        var whole := ce.written == |token|;
        Some(s.(controller := c.value.(step := if whole then TokenWritten else Stopping, stopSent := whole),
                pipe := WriteToPipe(s.pipe, token, ce.written)))
    case ByDaemon(de) =>
      var d := NextDaemon(s.controller, s.daemon, de);
      if d.None? then None else Some(s.(daemon := d.value))
    case ByRuntime(re) =>
      var pr := NextRuntime(s.controller, s.pipe, s.runtime, token, re);
      if pr.None? then None else Some(s.(pipe := pr.value.0, runtime := pr.value.1))
  }

  function Exec(s: State, token: Bytes, events: seq<Event>): Option<State> {
    if events == [] then Some(s)
    else
      var before := Exec(s, token, events[..|events| - 1]);
      if before.None? then None else Next(before.value, token, events[|events| - 1])
  }

  // ---------- safety of every interleaving ----------

  /** The daemon is gone and its worker recorded that nothing of it is left, or there never was one. */
  ghost predicate DaemonClosed(s: State) {
    s.controller.spawned ==>
      && s.daemon.started && s.daemon.exited && s.daemon.workerExited && !s.daemon.descendants
      && s.daemon.record == Some(ExitRecord(true, true))
  }

  ghost predicate ValidDaemon(c: Controller, d: Daemon) {
    && (c.bound ==> c.spawned && d.started)
    && (d.started || d.workerExited || d.record.Some? ==> c.spawned)
    && (d.exited || d.descendants ==> d.started)
    && (d.record.Some? ==>
          !d.descendants && d.record == Some(ExitRecord(d.started, true)) && (d.started ==> d.exited))
  }

  /** Past the checks the daemon is closed for good. */
  ghost predicate ValidStop(s: State) {
    && (s.controller.step in {Checked, IntentSaved, TokenWritten} || s.controller.intentExists ==>
          DaemonClosed(s) && !s.controller.step.Starting?)
    && (s.controller.stopSent ==> s.controller.intentExists)
    && (s.controller.step.IntentSaved? ==> s.controller.intentExists && !s.controller.stopSent)
  }

  ghost predicate ValidPipe(c: Controller, p: Pipe, token: Bytes) {
    && p.written <= token
    && p.written == p.consumed + p.pending
    && (c.stopSent ==> p.written == token)
    && (!c.intentExists || c.step.IntentSaved? ==> p.written == [])
    && (c.closed ==> c.stopSent)
  }

  ghost predicate ValidRuntime(c: Controller, p: Pipe, r: Runtime, token: Bytes) {
    && (r.reader.eof ==> WriteEndClosed(c) && p.pending == [])
    && !r.reader.invalid && r.reader.permission == p.consumed
    && (r.reader.permitted <==> r.reader.eof && p.consumed == token)
    && (r.signalled ==> r.reader.permitted)
  }

  ghost predicate Valid(s: State, token: Bytes) {
    && 1 <= |token| <= PERMISSION_LIMIT
    && ValidDaemon(s.controller, s.daemon) && ValidStop(s)
    && ValidPipe(s.controller, s.pipe, token) && ValidRuntime(s.controller, s.pipe, s.runtime, token)
  }

  lemma ReadKeepsValid(s: State, token: Bytes, count: nat)
    requires Valid(s, token) && Next(s, token, ByRuntime(ReadPermission(count))).Some?
    ensures Valid(Next(s, token, ByRuntime(ReadPermission(count))).value, token)
  {
    var p := s.pipe;
    if p.pending != [] {
      assert p.pending == p.pending[..count] + p.pending[count..];
      assert p.written == (p.consumed + p.pending[..count]) + p.pending[count..];
      assert |p.written| <= |token|;
    }
  }

  lemma ControllerKeepsValid(s: State, token: Bytes, e: ControllerEvent)
    requires Valid(s, token) && Next(s, token, ByController(e)).Some?
    ensures Valid(Next(s, token, ByController(e)).value, token)
  {
    if e.WriteToken? {
      assert s.pipe.written == [] && s.pipe.pending == [] && s.pipe.consumed == [];
      assert [] + token[..e.written] == token[..e.written];
    }
  }

  lemma StepKeepsValid(s: State, token: Bytes, e: Event)
    requires Valid(s, token) && Next(s, token, e).Some?
    ensures Valid(Next(s, token, e).value, token)
  {
    match e
    case ByController(ce) => ControllerKeepsValid(s, token, ce);
    case ByDaemon(de) =>
    case ByRuntime(re) => if re.ReadPermission? { ReadKeepsValid(s, token, re.count); }
  }

  lemma {:induction false} ReachableValid(token: Bytes, events: seq<Event>)
    requires 1 <= |token| <= PERMISSION_LIMIT && Exec(Init, token, events).Some?
    ensures Valid(Exec(Init, token, events).value, token)
    decreases |events|
  {
    if events != [] {
      ReachableValid(token, events[..|events| - 1]);
      StepKeepsValid(Exec(Init, token, events[..|events| - 1]).value, token, events[|events| - 1]);
    }
  }

  /**
   In every interleaving of all actors, with any of them dying or failing anywhere: the runtime worker
   signals its runtime only after the daemon exited and its worker recorded closed descendants, or when
   no daemon was ever spawned; and permission holds exactly when the ended stream is the token.
   */
  lemma RuntimeOutlivesDaemon(token: Bytes, events: seq<Event>)
    requires 1 <= |token| <= PERMISSION_LIMIT && Exec(Init, token, events).Some?
    ensures var s := Exec(Init, token, events).value;
            && (s.runtime.signalled || s.runtime.reader.permitted || s.pipe.written != [] ==> DaemonClosed(s))
            && (s.runtime.reader.permitted <==> s.runtime.reader.eof && s.pipe.written == token)
            && (s.runtime.signalled ==> s.runtime.reader.permitted)
  {
    ReachableValid(token, events);
  }

  predicate IsWrite(e: Event) {
    e.ByController? && e.controller.WriteToken?
  }

  function Writes(events: seq<Event>): nat {
    if events == [] then 0 else Writes(events[..|events| - 1]) + (if IsWrite(events[|events| - 1]) then 1 else 0)
  }

  lemma StepCountsWrites(s: State, token: Bytes, e: Event)
    requires Valid(s, token) && Next(s, token, e).Some?
    ensures var c, c' := s.controller, Next(s, token, e).value.controller;
            && (IsWrite(e) ==> c.step.IntentSaved? && c'.intentExists && !c'.step.IntentSaved?)
            && (!IsWrite(e) && c.intentExists && !c.step.IntentSaved? ==> c'.intentExists && !c'.step.IntentSaved?)
            && (!IsWrite(e) ==> Next(s, token, e).value.pipe.written == s.pipe.written)
  {
  }

  /**
   The token is written at most once, even when the write fails and containment stops again.  Without a
   write, whatever ends the stream, nothing is permitted and nothing is signalled.
   */
  lemma {:induction false} TokenWrittenAtMostOnce(token: Bytes, events: seq<Event>)
    requires 1 <= |token| <= PERMISSION_LIMIT && Exec(Init, token, events).Some?
    ensures var s := Exec(Init, token, events).value;
            && Writes(events) <= 1
            && (Writes(events) == 1 ==> s.controller.intentExists && !s.controller.step.IntentSaved?)
            && (Writes(events) == 0 ==> s.pipe.written == [] && !s.runtime.reader.permitted && !s.runtime.signalled)
    decreases |events|
  {
    ReachableValid(token, events);
    if events != [] {
      var front := events[..|events| - 1];
      TokenWrittenAtMostOnce(token, front);
      ReachableValid(token, front);
      StepCountsWrites(Exec(Init, token, front).value, token, events[|events| - 1]);
    }
  }

  // ---------- the procedure ----------

  lemma ExecAppend(token: Bytes, events: seq<Event>, e: Event)
    requires Exec(Init, token, events).Some?
    ensures Exec(Init, token, events + [e]) == Next(Exec(Init, token, events).value, token, e)
  {
    assert (events + [e])[..|events|] == events;
  }

  /** All actors of one operation, with the history of everything that happened. */
  class Actors {
    const token: Bytes
    var state: State
    ghost var events: seq<Event>

    ghost predicate Recorded()
      reads this
    {
      1 <= |token| <= PERMISSION_LIMIT && Exec(Init, token, events) == Some(state)
    }

    constructor (token: Bytes)
      requires 1 <= |token| <= PERMISSION_LIMIT
      ensures Recorded() && state == Init && this.token == token
    {
      this.token := token;
      state, events := Init, [];
    }

    method Perform(e: Event)
      requires Recorded() && Next(state, token, e).Some?
      modifies this
      ensures Recorded() && Some(state) == old(Next(state, token, e)) && events == old(events) + [e]
    {
      ExecAppend(token, events, e);
      state, events := Next(state, token, e).value, events + [e];
    }

    /** Whatever the other actors do between two steps of the controller. */
    method Others(schedule: seq<Event>)
      requires Recorded()
      modifies this
      ensures Recorded() && state.controller == old(state).controller && old(events) <= events
      ensures state.pipe.written == old(state).pipe.written && Writes(events) == old(Writes(events))
    {
      for k := 0 to |schedule|
        invariant Recorded() && state.controller == old(state).controller && old(events) <= events
        invariant state.pipe.written == old(state).pipe.written && Writes(events) == old(Writes(events))
      {
        if !schedule[k].ByController? && Next(state, token, schedule[k]).Some? {
          Perform(schedule[k]);
        }
      }
    }

    /** A controller step other than the token write. */
    method Control(e: ControllerEvent, schedule: seq<Event>)
      requires Recorded() && !e.WriteToken? && NextController(state.controller, state.daemon, e).Some?
      modifies this
      ensures Recorded() && old(events) <= events
      ensures Some(state.controller) == old(NextController(state.controller, state.daemon, e))
      ensures state.pipe.written == old(state).pipe.written
    {
      Perform(ByController(e));
      Others(schedule);
    }

    /** The token write, whole or short. */
    method Write(count: nat, schedule: seq<Event>)
      requires Recorded() && state.controller.alive && state.controller.step.IntentSaved? && count <= |token|
      modifies this
      ensures Recorded() && old(events) <= events
      ensures state.controller == old(state).controller.(
                step := if count == |token| then TokenWritten else Stopping, stopSent := count == |token|)
    {
      Perform(ByController(WriteToken(count)));
      Others(schedule);
    }

    method Close()
      requires Recorded() && state.controller.alive && state.controller.stopSent
      modifies this
      ensures Recorded() && old(events) <= events
      ensures state.controller.closed && state.pipe.written == token && DaemonClosed(state)
    {
      Perform(ByController(CloseTokenPipe));
      ReachableValid(token, events);
    }

    /**
     `permit_runtime_stop`: the checks, one exclusive intent, one write of the whole token, close.
     `saved` and `count` are what the artifact store and the pipe answer; `schedules` is what the other
     actors do meanwhile.  It sends nothing unless the daemon is closed for good.
     */
    method PermitRuntimeStop(saved: bool, count: nat, schedules: (seq<Event>, seq<Event>, seq<Event>)) returns (sent: bool)
      requires Recorded() && state.controller.alive && state.controller.step.Stopping? && count <= |token|
      modifies this
      ensures Recorded() && old(events) <= events
      ensures sent ==> state.controller.closed && state.pipe.written == token && DaemonClosed(state)
      ensures sent <==> old(StopAllowed(state.controller, state.daemon) && !state.controller.intentExists)
                        && saved && count == |token|
      ensures !old(StopAllowed(state.controller, state.daemon)) ==> state.pipe.written == old(state.pipe.written)
    {
      if !StopAllowed(state.controller, state.daemon) {
        Control(ControllerFails, []);
        return false;
      }
      Control(CheckStop, schedules.0);
      if !saved || state.controller.intentExists {
        Control(ControllerFails, []);
        return false;
      }
      Control(SaveIntent, schedules.1);
      Write(count, schedules.2);
      if count < |token| {
        return false;
      }
      Close();
      return true;
    }
  }
}
