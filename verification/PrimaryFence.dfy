/**
 The one-use primary fences: prepare, capture under one clock of two seconds, archive.  Every call may fail
 anywhere, and a failure after a context exists leaves it UNKNOWN for good.
 */
module PrimaryFence {
  import opened Prelude

  type Id = string

  const MAX_HANDLES := 16
  const MAX_POLLS := 32
  const CLOCK := 2.0

  // ---------- log positions ----------

  predicate IsUpperHex(c: char) {
    '0' <= c <= '9' || 'A' <= c <= 'F'
  }

  predicate IsHexField(s: string) {
    1 <= |s| <= 8 && forall i :: 0 <= i < |s| ==> IsUpperHex(s[i])
  }

  function HexDigit(c: char): nat
    requires IsUpperHex(c)
  {
    if c <= '9' then c as int - '0' as int else c as int - 'A' as int + 10
  }

  function HexValue(s: string): nat
    requires forall i :: 0 <= i < |s| ==> IsUpperHex(s[i])
  {
    if s == "" then 0 else 16 * HexValue(s[..|s| - 1]) + HexDigit(s[|s| - 1])
  }

  function Power16(n: nat): nat {
    if n == 0 then 1 else 16 * Power16(n - 1)
  }

  lemma {:induction false} HexBound(s: string)
    requires forall i :: 0 <= i < |s| ==> IsUpperHex(s[i])
    ensures HexValue(s) < Power16(|s|)
    decreases |s|
  {
    if s != "" {
      HexBound(s[..|s| - 1]);
    }
  }

  lemma HexFieldBound(s: string)
    requires IsHexField(s)
    ensures HexValue(s) < 0x1_0000_0000
  {
    HexBound(s);
    assert Power16(8) == 0x1_0000_0000;
    PowerGrows(|s|, 8);
  }

  lemma {:induction false} PowerGrows(a: nat, b: nat)
    requires a <= b
    ensures Power16(a) <= Power16(b)
    decreases b
  {
    if a < b {
      PowerGrows(a, b - 1);
    }
  }

  /** `_lsn`: two hexadecimal halves around a slash. */
  function Lsn(s: string): Option<nat> {
    var n := FirstSlash(s);
    if n < |s| && IsHexField(s[..n]) && IsHexField(s[n + 1..])
    then Some(HexValue(s[..n]) * 0x1_0000_0000 + HexValue(s[n + 1..])) else None
  }

  /** Positions are ordered by their halves. */
  lemma LsnOrder(a: string, b: string)
    requires Lsn(a).Some? && Lsn(b).Some?
    ensures var (i, j) := (FirstSlash(a), FirstSlash(b));
            Lsn(a).value < Lsn(b).value <==>
              || HexValue(a[..i]) < HexValue(b[..j])
              || (HexValue(a[..i]) == HexValue(b[..j]) && HexValue(a[i + 1..]) < HexValue(b[j + 1..]))
  {
    HexFieldBound(a[FirstSlash(a) + 1..]);
    HexFieldBound(b[FirstSlash(b) + 1..]);
  }

  // ---------- one capture ----------

  /** What the primary says: identity and lifetime, the two control fields if bound, and two positions. */
  datatype Peer = Peer(lifetime: Id, identity: Id, control: Option<Id>, prefix: string, flush: string)

  datatype Expected = Expected(identity: Id, control: Id)

  /** One native command: when it starts, ends, and is checked against the clock; nothing if it fails at all. */
  datatype Command = Command(start: real, finish: real, checked: real, peers: Option<seq<Peer>>)

  predicate PeerOk(p: Peer, e: Expected) {
    && p.identity == e.identity && (p.control.Some? ==> p.control.value == e.control)
    && Lsn(p.prefix).Some? && Lsn(p.flush).Some?
  }

  predicate Ran(c: Command, n: nat, end: real, e: Expected) {
    && c.start < end && c.checked < end && c.peers.Some? && |c.peers.value| == n
    && forall k :: 0 <= k < n ==> PeerOk(c.peers.value[k], e)
  }

  predicate SameStatic(a: Peer, b: Peer) {
    a.lifetime == b.lifetime && a.identity == b.identity && a.control == b.control
  }

  predicate Durable(before: Peer, after: Peer) {
    Lsn(before.prefix).Some? && Lsn(after.flush).Some? && Lsn(after.flush).value >= Lsn(before.prefix).value
  }

  datatype Proof = Proof(before: Peer, after: Peer)

  predicate ProofOk(p: Proof, e: Expected) {
    && p.before.control == Some(e.control) && SameStatic(p.before, p.after)
    && PeerOk(p.before, e) && PeerOk(p.after, e) && Durable(p.before, p.after)
  }

  /** The polls after `used` commands: what was last seen, if all went well, and how many commands ran. */
  function Poll(before: Peer, after: Peer, commands: seq<Command>, used: nat, end: real, e: Expected): (Option<Peer>, nat)
    requires used <= MAX_POLLS + 1
    decreases MAX_POLLS + 1 - used
  {
    if Durable(before, after) then (Some(after), used)
    else if used > MAX_POLLS || used >= |commands| || !SameStatic(before, after) || commands[used].start >= end then (None, used)
    else if !Ran(commands[used], 1, end, e) then (None, used + 1)
    else Poll(before, commands[used].peers.value[0], commands, used + 1, end, e)
  }

  /** What a capture meets: when it starts, its commands, and the last look at context and clock. */
  datatype Script = Script(started: real, commands: seq<Command>, lightOk: bool, lastCheck: real, finished: real)

  function CaptureEnd(originalEnd: real, started: real): real {
    if originalEnd < started + CLOCK then originalEnd else started + CLOCK
  }

  /** The proof of a capture, if it succeeds, and the number of commands it ran. */
  function CaptureProof(s: Script, end: real, e: Expected): (Option<Proof>, nat) {
    if s.commands == [] || s.commands[0].start >= end then (None, 0)
    else if !Ran(s.commands[0], 2, end, e) then (None, 1)
    else
      var before := s.commands[0].peers.value[0];
      var (after, used) := Poll(before, s.commands[0].peers.value[1], s.commands, 1, end, e);
      if after.None? || !ProofOk(Proof(before, after.value), e) || !s.lightOk || s.lastCheck >= end then (None, used)
      else (Some(Proof(before, after.value)), used)
  }

  /** A monotonic clock. */
  ghost predicate Clocked(s: Script) {
    && s.lastCheck <= s.finished && s.started <= s.finished
    && forall k :: 0 <= k < |s.commands| ==> s.started <= s.commands[k].start <= s.commands[k].finish <= s.commands[k].checked
  }

  /** A command that ran under the clock. */
  predicate Within(c: Command, end: real) {
    c.start < end && c.checked < end && c.peers.Some?
  }

  ghost predicate AllWithin(commands: seq<Command>, lo: nat, hi: nat, end: real)
    requires hi <= |commands|
  {
    forall k :: lo <= k < hi ==> Within(commands[k], end)
  }

  lemma OneMoreWithin(commands: seq<Command>, lo: nat, hi: nat, end: real)
    ensures lo < hi <= |commands| && Within(commands[lo], end) && AllWithin(commands, lo + 1, hi, end) ==>
              AllWithin(commands, lo, hi, end)
  {
  }

  lemma {:induction false} PollBounds(before: Peer, after: Peer, commands: seq<Command>, used: nat, end: real, e: Expected)
    requires used <= MAX_POLLS + 1 && used <= |commands|
    ensures used <= Poll(before, after, commands, used, end, e).1 <= MAX_POLLS + 1
    ensures Poll(before, after, commands, used, end, e).1 <= |commands|
    ensures Poll(before, after, commands, used, end, e).0.Some? ==>
              AllWithin(commands, used, Poll(before, after, commands, used, end, e).1, end)
    decreases MAX_POLLS + 1 - used
  {
    if used <= MAX_POLLS && used < |commands| && Ran(commands[used], 1, end, e) {
      var next := commands[used].peers.value[0];
      PollBounds(before, next, commands, used + 1, end, e);
      OneMoreWithin(commands, used, Poll(before, next, commands, used + 1, end, e).1, end);
    }
  }

  /** A successful capture: durable, at most 33 commands, every one under the one clock. */
  lemma CaptureBounds(s: Script, end: real, e: Expected)
    ensures CaptureProof(s, end, e).1 <= MAX_POLLS + 1 && CaptureProof(s, end, e).1 <= |s.commands|
    ensures CaptureProof(s, end, e).0.Some? ==>
              && ProofOk(CaptureProof(s, end, e).0.value, e) && s.lastCheck < end
              && AllWithin(s.commands, 0, CaptureProof(s, end, e).1, end)
  {
    if s.commands != [] && s.commands[0].start < end && Ran(s.commands[0], 2, end, e) {
      var before, after := s.commands[0].peers.value[0], s.commands[0].peers.value[1];
      PollBounds(before, after, s.commands, 1, end, e);
      assert Within(s.commands[0], end);
    }
  }

  // ---------- contexts ----------

  datatype Phase = Preparing | Prepared | Capturing | Captured | Unknown | Archived

  /** What a capture leaves behind; without a proof it failed. */
  datatype Window = Window(proof: Option<Proof>, started: real, finished: real, deadline: real, archiveStarted: bool)

  datatype Handle = Handle(operation: Id, originalEnd: real, expected: Expected, phase: Phase,
                           records: seq<Command>, window: Option<Window>)

  datatype State = State(unknown: bool, handles: seq<Handle>, ends: map<Id, real>)

  const START := State(false, [], map[])

  datatype Call =
    | Prepare(operation: Id, requestedEnd: real, driverEnd: Option<real>, expected: Expected, now: real,
              scopeOk: bool, qualified: bool)
    | Capture(k: nat, now: real, sealOk: bool, script: Script)
    | Archive(k: nat, now: real, stored: bool)

  function EndOf(requested: real, driver: Option<real>): real {
    if driver.Some? && driver.value < requested then driver.value else requested
  }

  predicate MayPrepare(st: State, operation: Id, requested: real, driver: Option<real>, now: real, scopeOk: bool) {
    && scopeOk && now < requested && (driver.Some? ==> now < driver.value)
    && (operation in st.ends ==> st.ends[operation] == EndOf(requested, driver))
    && !st.unknown && |st.handles| < MAX_HANDLES
    && forall k :: 0 <= k < |st.handles| ==> st.handles[k].phase == Archived
  }

  predicate MayCapture(st: State, k: nat, now: real, sealOk: bool) {
    && k < |st.handles| && st.handles[k].phase == Prepared && !st.unknown
    && sealOk && now < st.handles[k].originalEnd
  }

  predicate MayArchive(st: State, k: nat) {
    k < |st.handles| && st.handles[k].window.Some? && !st.handles[k].window.value.archiveStarted
  }

  function CapturedHandle(h: Handle, s: Script): Handle {
    var end := CaptureEnd(h.originalEnd, s.started);
    var (proof, used) := CaptureProof(s, end, h.expected);
    CaptureBounds(s, end, h.expected);
    h.(phase := if proof.Some? then Captured else Unknown, records := s.commands[..used],
       window := Some(Window(proof, s.started, s.finished, end, false)))
  }

  function ArchivedHandle(h: Handle, now: real, stored: bool): Handle
    requires h.window.Some?
  {
    var ok := stored && now < h.originalEnd && h.window.value.proof.Some?;
    h.(phase := if ok then Archived else Unknown, window := Some(h.window.value.(archiveStarted := true)))
  }

  function WithHandle(st: State, k: nat, h: Handle): State
    requires k < |st.handles|
  {
    st.(handles := st.handles[k := h], unknown := st.unknown || h.phase == Unknown)
  }

  /** One call; one that is refused up front changes nothing. */
  function Next(st: State, call: Call): State {
    match call
    case Prepare(operation, requested, driver, expected, now, scopeOk, qualified) =>
      if !MayPrepare(st, operation, requested, driver, now, scopeOk) then st
      else
        var end := EndOf(requested, driver);
        State(!qualified, st.handles + [Handle(operation, end, expected, if qualified then Prepared else Unknown, [], None)],
              st.ends[operation := end])
    case Capture(k, now, sealOk, script) =>
      if !MayCapture(st, k, now, sealOk) then st else WithHandle(st, k, CapturedHandle(st.handles[k], script))
    case Archive(k, now, stored) =>
      if !MayArchive(st, k) then st else WithHandle(st, k, ArchivedHandle(st.handles[k], now, stored))
  }

  class Fences {
    var unknown: bool
    var handles: seq<Handle>
    var ends: map<Id, real>

    ghost function View(): State
      reads this
    {
      State(unknown, handles, ends)
    }

    constructor ()
      ensures View() == START
    {
      unknown, handles, ends := false, [], map[];
    }

    /** `_hold`. */
    method Hold(k: nat)
      requires k < |handles|
      modifies this
      ensures View() == State(true, old(handles)[k := old(handles)[k].(phase := Unknown)], old(ends))
    {
      handles := handles[k := handles[k].(phase := Unknown)];
      unknown := true;
    }

    /** `prepare_primary_fence`; `qualified` is the outcome of everything after the context is registered. */
    method PrepareFence(operation: Id, requested: real, driver: Option<real>, expected: Expected, now: real,
                        scopeOk: bool, qualified: bool) returns (k: Option<nat>)
      modifies this
      ensures View() == Next(old(View()), Prepare(operation, requested, driver, expected, now, scopeOk, qualified))
      ensures k.Some? <==> MayPrepare(old(View()), operation, requested, driver, now, scopeOk) && qualified
    {
      if !MayPrepare(State(unknown, handles, ends), operation, requested, driver, now, scopeOk) {
        return None;
      }
      var end := EndOf(requested, driver);
      ends := ends[operation := end];
      handles := handles + [Handle(operation, end, expected, Preparing, [], None)];
      var last := |handles| - 1;
      if !qualified {
        Hold(last);
        return None;
      }
      handles := handles[last := handles[last].(phase := Prepared)];
      k := Some(last);
    }

    /** `capture_primary_fence`: the proof query, then polls until the flush has reached the prefix. */
    method CaptureFence(k: nat, now: real, sealOk: bool, script: Script) returns (ok: bool)
      modifies this
      ensures View() == Next(old(View()), Capture(k, now, sealOk, script))
      ensures ok <==> MayCapture(old(View()), k, now, sealOk) && View().handles[k].phase == Captured
    {
      if !MayCapture(State(unknown, handles, ends), k, now, sealOk) {
        return false;
      }
      var h := handles[k].(phase := Capturing);
      handles := handles[k := h];
      var end := CaptureEnd(h.originalEnd, script.started);
      var proof, used := TakeProof(script, end, h.expected);
      CaptureBounds(script, end, h.expected);
      var window := Window(proof, script.started, script.finished, end, false);
      handles := handles[k := h.(records := script.commands[..used], window := Some(window))];
      ok := proof.Some?;
      if ok {
        handles := handles[k := handles[k].(phase := Captured)];
      } else {
        Hold(k);
      }
    }

    /** `archive_primary_fence`; `stored` is the outcome of saving the records and of the global closure query. */
    method ArchiveFence(k: nat, now: real, stored: bool) returns (ok: bool)
      modifies this
      ensures View() == Next(old(View()), Archive(k, now, stored))
      ensures ok <==> MayArchive(old(View()), k) && View().handles[k].phase == Archived
    {
      if !MayArchive(State(unknown, handles, ends), k) {
        return false;
      }
      var h := handles[k];
      h := h.(window := Some(h.window.value.(archiveStarted := true)));
      handles := handles[k := h];
      ok := now < h.originalEnd && stored && h.window.value.proof.Some?;
      if ok {
        handles := handles[k := h.(phase := Archived)];
      } else {
        Hold(k);
      }
    }
  }

  /** The polls of one capture. */
  method PollPeers(before: Peer, first: Peer, commands: seq<Command>, end: real, e: Expected)
    returns (last: Option<Peer>, used: nat)
    ensures (last, used) == Poll(before, first, commands, 1, end, e)
  {
    var after, polls := first, 0;
    used := 1;
    while !Durable(before, after)
      invariant used == polls + 1 && polls <= MAX_POLLS
      invariant Poll(before, first, commands, 1, end, e) == Poll(before, after, commands, used, end, e)
      decreases MAX_POLLS - polls
    {
      polls := polls + 1;
      if polls > MAX_POLLS || used >= |commands| || !SameStatic(before, after) || commands[used].start >= end {
        return None, used;
      }
      used := used + 1;
      if !Ran(commands[used - 1], 1, end, e) {
        return None, used;
      }
      after := commands[used - 1].peers.value[0];
    }
    last := Some(after);
  }

  /** The commands of one capture. */
  method TakeProof(script: Script, end: real, e: Expected) returns (proof: Option<Proof>, used: nat)
    ensures (proof, used) == CaptureProof(script, end, e)
  {
    if script.commands == [] || script.commands[0].start >= end {
      return None, 0;
    }
    if !Ran(script.commands[0], 2, end, e) {
      return None, 1;
    }
    var before, first := script.commands[0].peers.value[0], script.commands[0].peers.value[1];
    var last;
    last, used := PollPeers(before, first, script.commands, end, e);
    if last.None? || !ProofOk(Proof(before, last.value), e) || !script.lightOk || script.lastCheck >= end {
      return None, used;
    }
    proof := Some(Proof(before, last.value));
  }

  // ---------- what every history of calls keeps ----------

  ghost predicate GoodProof(h: Handle) {
    && h.window.Some? && h.window.value.proof.Some? && ProofOk(h.window.value.proof.value, h.expected)
    && 1 <= |h.records| <= MAX_POLLS + 1 && AllWithin(h.records, 0, |h.records|, h.window.value.deadline)
    && h.window.value.deadline <= h.window.value.started + CLOCK && h.window.value.deadline <= h.originalEnd
  }

  ghost predicate GoodHandle(h: Handle, ends: map<Id, real>) {
    && h.operation in ends && ends[h.operation] == h.originalEnd
    && match h.phase
       case Prepared => h.window.None? && h.records == []
       case Captured => GoodProof(h) && !h.window.value.archiveStarted
       case Archived => GoodProof(h) && h.window.value.archiveStarted
       case Unknown => h.window.Some? ==> h.window.value.proof.None? || h.window.value.archiveStarted
       case _ => false
  }

  /** At most the last context is not archived, and the backend is held exactly when that one is unknown. */
  ghost predicate Inv(st: State) {
    && |st.handles| <= MAX_HANDLES
    && (forall k :: 0 <= k < |st.handles| - 1 ==> st.handles[k].phase == Archived)
    && (forall k :: 0 <= k < |st.handles| ==> GoodHandle(st.handles[k], st.ends))
    && (st.unknown <==> st.handles != [] && st.handles[|st.handles| - 1].phase == Unknown)
  }

  lemma CaptureIsGood(h: Handle, s: Script, ends: map<Id, real>)
    requires GoodHandle(h, ends) && h.phase == Prepared
    ensures GoodHandle(CapturedHandle(h, s), ends)
  {
    var end := CaptureEnd(h.originalEnd, s.started);
    CaptureBounds(s, end, h.expected);
    var (proof, used) := CaptureProof(s, end, h.expected);
    if proof.Some? {
      var before := s.commands[0].peers.value[0];
      PollBounds(before, s.commands[0].peers.value[1], s.commands, 1, end, h.expected);
      var records := s.commands[..used];
      forall k | 0 <= k < used ensures Within(records[k], end) {
        assert records[k] == s.commands[k] && Within(s.commands[k], end);
      }
    }
  }

  lemma ArchiveIsGood(h: Handle, now: real, stored: bool, ends: map<Id, real>)
    requires GoodHandle(h, ends) && h.window.Some? && !h.window.value.archiveStarted
    ensures GoodHandle(ArchivedHandle(h, now, stored), ends)
  {
  }

  lemma ReplacingLastKeepsInv(st: State, h: Handle)
    requires Inv(st) && st.handles != [] && GoodHandle(h, st.ends) && (st.unknown ==> h.phase == Unknown)
    ensures Inv(WithHandle(st, |st.handles| - 1, h))
  {
  }

  lemma PrepareKeepsInv(st: State, operation: Id, end: real, h: Handle)
    requires Inv(st) && !st.unknown && |st.handles| < MAX_HANDLES && (operation in st.ends ==> st.ends[operation] == end)
    requires forall k :: 0 <= k < |st.handles| ==> st.handles[k].phase == Archived
    requires GoodHandle(h, st.ends[operation := end])
    ensures Inv(State(h.phase == Unknown, st.handles + [h], st.ends[operation := end]))
  {
    var ends, handles := st.ends[operation := end], st.handles + [h];
    forall k | 0 <= k < |handles| ensures GoodHandle(handles[k], ends) {
      if k < |st.handles| {
        assert GoodHandle(st.handles[k], st.ends) && handles[k] == st.handles[k];
      }
    }
  }

  lemma StepKeepsInv(st: State, call: Call)
    requires Inv(st)
    ensures Inv(Next(st, call))
  {
    match call {
      case Prepare(operation, requested, driver, expected, now, scopeOk, qualified) =>
        if MayPrepare(st, operation, requested, driver, now, scopeOk) {
          var end := EndOf(requested, driver);
          PrepareKeepsInv(st, operation, end,
                          Handle(operation, end, expected, if qualified then Prepared else Unknown, [], None));
        }
      case Capture(k, now, sealOk, script) =>
        if MayCapture(st, k, now, sealOk) {
          assert k == |st.handles| - 1 && GoodHandle(st.handles[k], st.ends);
          CaptureIsGood(st.handles[k], script, st.ends);
          ReplacingLastKeepsInv(st, CapturedHandle(st.handles[k], script));
        }
      case Archive(k, now, stored) =>
        if MayArchive(st, k) {
          assert GoodHandle(st.handles[k], st.ends);
          assert k == |st.handles| - 1;
          ArchiveIsGood(st.handles[k], now, stored, st.ends);
          ReplacingLastKeepsInv(st, ArchivedHandle(st.handles[k], now, stored));
        }
    }
  }

  ghost function Exec(calls: seq<Call>): State
    decreases |calls|
  {
    if calls == [] then START else Next(Exec(calls[..|calls| - 1]), calls[|calls| - 1])
  }

  lemma {:induction false} EveryHistoryKeepsInv(calls: seq<Call>)
    ensures Inv(Exec(calls))
    decreases |calls|
  {
    if calls != [] {
      EveryHistoryKeepsInv(calls[..|calls| - 1]);
      StepKeepsInv(Exec(calls[..|calls| - 1]), calls[|calls| - 1]);
    }
  }

  // ---------- what later calls cannot change ----------

  /** A context's later form: the same operation and end; archived or captured evidence is never rewritten. */
  ghost predicate LaterHandle(a: Handle, b: Handle) {
    && b.operation == a.operation && b.originalEnd == a.originalEnd && b.expected == a.expected
    && (a.window.Some? ==> b.window.Some? && b.window.value == a.window.value.(archiveStarted := b.window.value.archiveStarted))
    && (a.window.Some? ==> b.records == a.records)
    && (a.window.Some? && a.window.value.archiveStarted ==> b == a)
    && (a.phase == Unknown ==> b.phase == Unknown && (a.window.None? ==> b == a))
  }

  ghost predicate Later(a: State, b: State) {
    && |a.handles| <= |b.handles|
    && (forall k :: 0 <= k < |a.handles| ==> LaterHandle(a.handles[k], b.handles[k]))
    && (forall op :: op in a.ends ==> op in b.ends && b.ends[op] == a.ends[op])
    && (a.unknown ==> b.unknown && |b.handles| == |a.handles| && b.ends == a.ends)
  }

  lemma ReplacingIsLater(st: State, k: nat, h: Handle)
    requires k < |st.handles| && LaterHandle(st.handles[k], h)
    ensures Later(st, WithHandle(st, k, h))
  {
  }

  lemma CaptureIsLater(h: Handle, s: Script, ends: map<Id, real>)
    requires GoodHandle(h, ends) && h.phase == Prepared
    ensures LaterHandle(h, CapturedHandle(h, s))
  {
  }

  lemma ArchiveIsLater(h: Handle, now: real, stored: bool, ends: map<Id, real>)
    requires GoodHandle(h, ends) && h.window.Some? && !h.window.value.archiveStarted
    ensures LaterHandle(h, ArchivedHandle(h, now, stored))
  {
  }

  lemma PrepareIsLater(st: State, operation: Id, end: real, h: Handle, unknown: bool)
    requires !st.unknown && (operation in st.ends ==> st.ends[operation] == end)
    ensures Later(st, State(unknown, st.handles + [h], st.ends[operation := end]))
  {
  }

  lemma StepIsLater(st: State, call: Call)
    requires Inv(st)
    ensures Later(st, Next(st, call))
  {
    match call {
      case Prepare(operation, requested, driver, expected, now, scopeOk, qualified) =>
        if MayPrepare(st, operation, requested, driver, now, scopeOk) {
          var end := EndOf(requested, driver);
          PrepareIsLater(st, operation, end,
                         Handle(operation, end, expected, if qualified then Prepared else Unknown, [], None), !qualified);
        }
      case Capture(k, now, sealOk, script) =>
        if MayCapture(st, k, now, sealOk) {
          assert GoodHandle(st.handles[k], st.ends);
          CaptureIsLater(st.handles[k], script, st.ends);
          ReplacingIsLater(st, k, CapturedHandle(st.handles[k], script));
        }
      case Archive(k, now, stored) =>
        if MayArchive(st, k) {
          assert GoodHandle(st.handles[k], st.ends);
          ArchiveIsLater(st.handles[k], now, stored, st.ends);
          ReplacingIsLater(st, k, ArchivedHandle(st.handles[k], now, stored));
        }
    }
  }

  lemma LaterTransitive(a: State, b: State, c: State)
    requires Later(a, b) && Later(b, c)
    ensures Later(a, c)
  {
    forall k | 0 <= k < |a.handles| ensures LaterHandle(a.handles[k], c.handles[k]) {
      assert LaterHandle(a.handles[k], b.handles[k]) && LaterHandle(b.handles[k], c.handles[k]);
    }
  }

  /**
     Over any later history: deadlines stay, an archive that was started is not started again, unknown stays
     unknown, and while it does no context is added.
     */
  lemma {:induction false} HistoryIsLater(calls: seq<Call>, n: nat)
    requires n <= |calls|
    ensures Later(Exec(calls[..n]), Exec(calls))
    decreases |calls|
  {
    if n == |calls| {
      assert calls[..n] == calls;
    } else {
      var front := calls[..|calls| - 1];
      assert front[..n] == calls[..n];
      HistoryIsLater(front, n);
      EveryHistoryKeepsInv(front);
      StepIsLater(Exec(front), calls[|calls| - 1]);
      LaterTransitive(Exec(calls[..n]), Exec(front), Exec(calls));
    }
  }

  /** Once unknown, nothing is prepared or captured any more. */
  lemma UnknownBlocks(st: State, call: Call)
    requires Inv(st) && st.unknown && !call.Archive?
    ensures Next(st, call) == st
  {
  }

  /** An archived context, whatever happened since: a durable proof, from at most 33 commands under one clock of two seconds. */
  lemma ArchivedHasItsProof(calls: seq<Call>, k: nat)
    requires k < |Exec(calls).handles| && Exec(calls).handles[k].phase == Archived
    ensures var h := Exec(calls).handles[k];
            && GoodProof(h) && Durable(h.window.value.proof.value.before, h.window.value.proof.value.after)
            && h.operation in Exec(calls).ends && Exec(calls).ends[h.operation] == h.originalEnd
  {
    EveryHistoryKeepsInv(calls);
    assert GoodHandle(Exec(calls).handles[k], Exec(calls).ends);
  }

  /** A window is archived by one call: a second call for it is refused and changes nothing. */
  lemma ArchivedOnce(calls: seq<Call>, n: nat, k: nat, now: real, stored: bool, now': real, stored': bool)
    requires n < |calls| && calls[n] == Archive(k, now, stored) && MayArchive(Exec(calls[..n]), k)
    ensures !MayArchive(Exec(calls), k)
    ensures Next(Exec(calls), Archive(k, now', stored')) == Exec(calls)
  {
    assert calls[..n + 1][..n] == calls[..n];
    HistoryIsLater(calls, n + 1);
    var a, b := Exec(calls[..n + 1]), Exec(calls);
    assert a.handles[k].window.value.archiveStarted;
    assert LaterHandle(a.handles[k], b.handles[k]);
  }

  const NOWHERE := Peer("lifetime", "standby", Some("epoch"), "0/1", "0/1")

  /**
     The finishing time of a window is read after the last check of the deadline, so a captured window may
     say that it finished past its own deadline.
     */
  lemma FinishMayPassTheDeadline(late: real)
    requires late >= 3.0
    ensures var h := Handle("op", 10.0, Expected("standby", "epoch"), Prepared, [], None);
            var script := Script(0.0, [Command(0.0, 0.5, 1.0, Some([NOWHERE, NOWHERE]))], true, 1.5, late);
            && Clocked(script) && CapturedHandle(h, script).phase == Captured
            && CapturedHandle(h, script).window.value.finished > CapturedHandle(h, script).window.value.deadline
  {
    assert Lsn("0/1") == Some(1) by {
      var s := "0/1";
      assert s[..1] == "0" && s[2..] == "1";
      assert FirstSlash(s) == 1;
      assert HexValue("0") == 0 && HexValue("1") == 1;
    }
  }

  // ---------- reading an archived window back ----------

  /** What readers of a historical window demand of its clock readings. */
  predicate HistoricalClock(w: Window, originalEnd: real) {
    w.started <= w.finished < w.deadline <= originalEnd
  }

  /** The readings of a handle's window and commands are in the order in which the clock was read. */
  ghost predicate Ordered(h: Handle) {
    h.window.Some? ==>
      && h.window.value.started <= h.window.value.finished
      && forall k :: 0 <= k < |h.records| ==>
           h.window.value.started <= h.records[k].start <= h.records[k].finish <= h.records[k].checked
  }

  ghost predicate AllOrdered(st: State) {
    forall k :: 0 <= k < |st.handles| ==> Ordered(st.handles[k])
  }

  ghost predicate ClockedCall(call: Call) {
    call.Capture? ==> Clocked(call.script)
  }

  lemma CaptureIsOrdered(h: Handle, s: Script)
    requires Clocked(s)
    ensures Ordered(CapturedHandle(h, s))
  {
    CaptureBounds(s, CaptureEnd(h.originalEnd, s.started), h.expected);
    var records := CapturedHandle(h, s).records;
    forall k | 0 <= k < |records| ensures records[k] == s.commands[k] {
    }
  }

  lemma StepKeepsOrder(st: State, call: Call)
    requires AllOrdered(st) && ClockedCall(call)
    ensures AllOrdered(Next(st, call))
  {
    if call.Capture? && MayCapture(st, call.k, call.now, call.sealOk) {
      CaptureIsOrdered(st.handles[call.k], call.script);
    }
  }

  lemma {:induction false} EveryHistoryKeepsOrder(calls: seq<Call>)
    requires forall i :: 0 <= i < |calls| ==> ClockedCall(calls[i])
    ensures AllOrdered(Exec(calls))
    decreases |calls|
  {
    if calls != [] {
      EveryHistoryKeepsOrder(calls[..|calls| - 1]);
      StepKeepsOrder(Exec(calls[..|calls| - 1]), calls[|calls| - 1]);
    }
  }

  /**
     Whatever the history on a monotonic clock, readers of an archived window find all its commands in order within
     its two seconds and within the operation's deadline, and they accept its clock readings if and only if the
     recorded finish is before the recorded deadline.
     */
  lemma ArchivedWindowReadsBack(calls: seq<Call>, k: nat)
    requires forall i :: 0 <= i < |calls| ==> ClockedCall(calls[i])
    requires k < |Exec(calls).handles| && Exec(calls).handles[k].phase == Archived
    ensures var h := Exec(calls).handles[k];
            && GoodProof(h)
            && (HistoricalClock(h.window.value, h.originalEnd) <==> h.window.value.finished < h.window.value.deadline)
            && forall i :: 0 <= i < |h.records| ==>
                 var c, w := h.records[i], h.window.value;
                 w.started <= c.start <= c.finish <= c.checked < w.deadline <= w.started + CLOCK
  {
    EveryHistoryKeepsOrder(calls);
    EveryHistoryKeepsInv(calls);
    var h := Exec(calls).handles[k];
    assert GoodHandle(h, Exec(calls).ends) && Ordered(h);
    forall i | 0 <= i < |h.records| ensures Within(h.records[i], h.window.value.deadline) {
    }
  }
}
