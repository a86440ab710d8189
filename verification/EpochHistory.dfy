/** Theorems about whole histories of one epoch root: any installers, failures and crashes in any order. */
module EpochHistory {
  import opened Prelude
  import opened EpochDocuments
  import opened EpochRoot
  import opened EpochInvariant

  ghost predicate Run(states: seq<State>, events: seq<Event>) {
    && |states| == |events| + 1
    && forall i :: 0 <= i < |events| ==> Next(states[i], events[i]) == Some(states[i + 1])
  }

  lemma {:induction false} RunKeepsValid(states: seq<State>, events: seq<Event>, i: nat, j: nat)
    requires Run(states, events) && i <= j < |states| && Valid(states[i])
    ensures Valid(states[j]) && Extends(states[i].fs, states[j].fs)
    decreases j
  {
    if i < j {
      var k := j - 1;
      RunKeepsValid(states, events, i, k);
      assert Next(states[k], events[k]) == Some(states[k + 1]);
      StepKeepsValid(states[k], events[k]);
    }
  }

  // ---------- what a crash can show ----------

  ghost function CrashHead(fs: Fs, keep: seq<bool>): Option<Raw>
    requires |keep| == |fs.ops|
  {
    ReadHead(AfterCrash(fs, keep, map[]))
  }

  /** A root left by a crash orders its documents: head, certificate, intent. */
  ghost predicate DocumentsOrdered(fs: Fs) {
    && (ReadHead(fs).Some? ==>
          ReadHead(fs).value.HeadBytes? && ReadHead(fs).value.head.certificate.raw.CertificateBytes?
          && var c := ReadHead(fs).value.head.certificate.raw.certificate;
             ReadHead(fs) == Some(HeadBytes(MakeHead(c))) && Lineage(fs, c))
    && (forall id :: PendingName(id) in fs.disk ==> CertificateFor(fs, id) && IntentFor(fs, id))
    && (forall id :: CertificateName(id) in fs.disk ==> IntentFor(fs, id))
  }

  lemma ValidNamesOrdered(fs: Fs)
    requires ValidFs(fs)
    ensures forall id :: PendingName(id) in fs.disk ==> CertificateFor(fs, id) && IntentFor(fs, id)
    ensures forall id :: CertificateName(id) in fs.disk ==> IntentFor(fs, id)
  {
    forall id | PendingName(id) in fs.disk ensures CertificateFor(fs, id) && IntentFor(fs, id) {
      assert Known(fs, PendingName(id));
      assert Known(fs, CertificateName(id));
    }
    forall id | CertificateName(id) in fs.disk ensures IntentFor(fs, id) {
      assert Known(fs, CertificateName(id));
    }
  }

  lemma CrashedHeadKept(fs: Fs, keep: seq<bool>, torn: map<Ino, Raw>)
    requires ValidFs(fs) && |keep| == |fs.ops| && ValidFs(AfterCrash(fs, keep, torn))
    ensures ReadHead(AfterCrash(fs, keep, torn)) == CrashHead(fs, keep)
  {
    ViewName(AfterCrash(fs, keep, torn), HeadName);
    CrashedName(fs, keep, HeadName);
  }

  /** After a crash at any step of any history, whatever was lost and whatever was torn. */
  lemma CrashKeepsDocumentsOrdered(states: seq<State>, events: seq<Event>, i: nat, keep: seq<bool>, torn: map<Ino, Raw>)
    requires Run(states, events) && states[0] == Fresh && i < |states| && |keep| == |states[i].fs.ops|
    ensures DocumentsOrdered(AfterCrash(states[i].fs, keep, torn))
    ensures ReadHead(AfterCrash(states[i].fs, keep, torn)) == CrashHead(states[i].fs, keep)
  {
    RunKeepsValid(states, events, 0, i);
    var fs, d := states[i].fs, AfterCrash(states[i].fs, keep, torn);
    CrashKeepsValid(fs, keep, torn);
    CrashedHeadKept(fs, keep, torn);
    ValidNamesOrdered(d);
    ViewName(d, HeadName);
  }

  // ---------- one install: old head or new head ----------

  ghost predicate HeadWithin(fs: Fs, a: Option<Raw>, b: Option<Raw>) {
    forall keep: seq<bool> :: |keep| == |fs.ops| ==> CrashHead(fs, keep) == a || CrashHead(fs, keep) == b
  }

  lemma CrashHeadIs(fs: Fs, keep: seq<bool>)
    requires ValidFs(fs) && |keep| == |fs.ops|
    ensures CrashHead(fs, keep) ==
            if PendingRename(fs) && keep[0] then Some(fs.files[fs.disk[fs.ops[0].from]].content)
            else ReadName(fs.disk, fs.files, HeadName)
  {
    CrashedName(fs, keep, HeadName);
    CrashKeepsValid(fs, keep, map[]);
    ViewName(AfterCrash(fs, keep, map[]), HeadName);
  }

  lemma ReadHeadIs(fs: Fs)
    requires ValidFs(fs)
    ensures ReadHead(fs) ==
            if PendingRename(fs) then Some(fs.files[fs.disk[fs.ops[0].from]].content)
            else ReadName(fs.disk, fs.files, HeadName)
  {
    ViewName(fs, HeadName);
  }

  ghost function DiskHead(fs: Fs): Option<Raw> {
    ReadName(fs.disk, fs.files, HeadName)
  }

  /** The head that the uncovered rename would put on disk, or the one that is there. */
  ghost function RenamedHead(fs: Fs): Option<Raw>
    requires ValidFs(fs)
  {
    if PendingRename(fs) then Some(fs.files[fs.disk[fs.ops[0].from]].content) else DiskHead(fs)
  }

  ghost predicate HeadsKnown(fs: Fs, a: Option<Raw>, b: Option<Raw>)
    requires ValidFs(fs)
  {
    DiskHead(fs) in {a, b} && RenamedHead(fs) in {a, b}
  }

  lemma HeadsKnownIsWithin(fs: Fs, a: Option<Raw>, b: Option<Raw>)
    requires ValidFs(fs)
    ensures HeadsKnown(fs, a, b) <==> HeadWithin(fs, a, b)
  {
    forall keep: seq<bool> | |keep| == |fs.ops|
      ensures CrashHead(fs, keep) in {DiskHead(fs), RenamedHead(fs)}
    {
      CrashHeadIs(fs, keep);
    }
    var all, none := seq(|fs.ops|, _ => true), seq(|fs.ops|, _ => false);
    CrashHeadIs(fs, all);
    CrashHeadIs(fs, none);
    if HeadWithin(fs, a, b) {
      assert CrashHead(fs, all) in {a, b} && CrashHead(fs, none) in {a, b};
    }
  }

  lemma SameDiskSameHeads(fs: Fs, fs': Fs)
    requires ValidFs(fs) && ValidFs(fs') && Extends(fs, fs') && fs'.disk == fs.disk
    requires PendingRename(fs) <==> PendingRename(fs')
    requires PendingRename(fs) ==> fs.ops[0] == fs'.ops[0]
    ensures DiskHead(fs') == DiskHead(fs) && RenamedHead(fs') == RenamedHead(fs)
  {
  }

  lemma CrashMovesHeads(fs: Fs, keep: seq<bool>, torn: map<Ino, Raw>)
    requires ValidFs(fs) && |keep| == |fs.ops| && ValidFs(AfterCrash(fs, keep, torn))
    ensures var fs' := AfterCrash(fs, keep, torn);
            DiskHead(fs') in {DiskHead(fs), RenamedHead(fs)} && RenamedHead(fs') == DiskHead(fs')
  {
    CrashedName(fs, keep, HeadName);
  }

  lemma SyncMovesHeads(fs: Fs)
    requires ValidFs(fs) && ValidFs(fs.(disk := View(fs), ops := []))
    ensures var fs' := fs.(disk := View(fs), ops := []);
            DiskHead(fs') == RenamedHead(fs') == RenamedHead(fs)
  {
    ViewName(fs, HeadName);
  }

  lemma RenameMovesHeads(s: State)
    requires Valid(s) && Next(s, RenameHead).Some? && Valid(Next(s, RenameHead).value)
    ensures var fs, fs' := s.fs, Next(s, RenameHead).value.fs;
            DiskHead(fs') == DiskHead(fs) && RenamedHead(fs') == Some(HeadBytes(MakeHead(s.job.value.certificate)))
  {
    var fs, job := s.fs, s.job.value;
    assert fs.ops == [] && Durable(fs, JobName(job, ThePending), JobBytes(job, ThePending));
  }

  lemma WritingKeepsHeads(s: State, e: Event)
    requires Valid(s) && Next(s, e).Some? && (e.CreateFile? || e.WritePart? || e.FsyncFile?)
    requires Valid(Next(s, e).value) && Extends(s.fs, Next(s, e).value.fs)
    ensures var fs, fs' := s.fs, Next(s, e).value.fs;
            DiskHead(fs') == DiskHead(fs) && RenamedHead(fs') == RenamedHead(fs)
  {
    SameDiskSameHeads(s.fs, Next(s, e).value.fs);
  }

  /** How one event moves the head on disk and the head an uncovered rename carries. */
  lemma StepMovesHeads(s: State, e: Event)
    requires Valid(s) && Next(s, e).Some?
    ensures Valid(Next(s, e).value)
    ensures var fs, fs' := s.fs, Next(s, e).value.fs;
            match e
            case Crash(_, _) => DiskHead(fs') in {DiskHead(fs), RenamedHead(fs)} && RenamedHead(fs') == DiskHead(fs')
            case SyncDirectory => DiskHead(fs') == RenamedHead(fs') == RenamedHead(fs)
            case RenameHead =>
              DiskHead(fs') == DiskHead(fs) && RenamedHead(fs') == Some(HeadBytes(MakeHead(s.job.value.certificate)))
            case _ => DiskHead(fs') == DiskHead(fs) && RenamedHead(fs') == RenamedHead(fs)
  {
    StepKeepsValid(s, e);
    match e
    case Crash(keep, torn) => CrashMovesHeads(s.fs, keep, torn);
    case SyncDirectory => SyncMovesHeads(s.fs);
    case RenameHead => RenameMovesHeads(s);
    case CreateFile(_) => WritingKeepsHeads(s, e);
    case WritePart(_) => WritingKeepsHeads(s, e);
    case FsyncFile => WritingKeepsHeads(s, e);
    case _ =>
  }

  ghost function NewHead(e: Event): Option<Raw>
    requires e.Begin?
  {
    match ValidateTransition(e.raw, e.expected)
    case Ok(head) => Some(HeadBytes(head))
    case Refused => None
  }

  /** Every head a crash can show is `a` or `b`, and only `b` is being installed. */
  ghost predicate Between(s: State, a: Option<Raw>, b: Option<Raw>) {
    && Valid(s) && HeadsKnown(s.fs, a, b)
    && (s.job.Some? ==> b == Some(HeadBytes(MakeHead(s.job.value.certificate))))
  }

  lemma StepKeepsBetween(s: State, e: Event, a: Option<Raw>, b: Option<Raw>)
    requires Between(s, a, b) && !e.Begin? && Next(s, e).Some?
    ensures Between(Next(s, e).value, a, b)
  {
    StepMovesHeads(s, e);
  }

  lemma BeginIsBetween(s: State, e: Event)
    requires Valid(s) && e.Begin? && Next(s, e).Some? && !PendingRename(s.fs)
    ensures Between(Next(s, e).value, e.expected, NewHead(e))
  {
    StepKeepsValid(s, e);
    ReadHeadIs(s.fs);
  }

  /**
   During one install and after it, until another begins, every crash shows the head it started from
   or the head it installs.  This holds exactly when the rename of the starting head was already
   covered by a directory fsync: otherwise a crash can still show the head before that one.
   */
  lemma HeadIsOldOrNewIffSettled(states: seq<State>, events: seq<Event>)
    requires Run(states, events) && Valid(states[0]) && |events| > 0 && events[0].Begin?
    requires forall i :: 0 < i < |events| ==> !events[i].Begin?
    ensures (forall i :: 0 <= i < |states| ==>
               HeadWithin(states[i].fs, events[0].expected, NewHead(events[0])))
            <==> !PendingRename(states[0].fs)
  {
    var a, b := events[0].expected, NewHead(events[0]);
    var fs := states[0].fs;
    assert Next(states[0], events[0]) == Some(states[1]);
    ReadHeadIs(fs);
    HeadsKnownIsWithin(fs, a, b);
    if PendingRename(fs) {
      var renamed := HeadCertificate(fs, fs.disk[fs.ops[0].from]);
      assert a == Some(HeadBytes(MakeHead(renamed)));
      if HeadName in fs.disk {
        var prior := HeadCertificate(fs, fs.disk[HeadName]);
        assert prior.generation < renamed.generation < events[0].raw.certificate.generation;
      }
      assert !HeadsKnown(fs, a, b);
    } else {
      forall i | 0 <= i < |states| ensures HeadWithin(states[i].fs, a, b) {
        if i > 0 {
          InstallKeepsHeads(states, events, i);
          HeadsKnownIsWithin(states[i].fs, a, b);
        }
      }
    }
  }

  lemma {:induction false} InstallKeepsHeads(states: seq<State>, events: seq<Event>, i: nat)
    requires Run(states, events) && Valid(states[0]) && |events| > 0 && events[0].Begin? && 0 < i < |states|
    requires forall k :: 0 < k < |events| ==> !events[k].Begin?
    requires !PendingRename(states[0].fs)
    ensures Between(states[i], events[0].expected, NewHead(events[0]))
  {
    var k := i - 1;
    assert Next(states[k], events[k]) == Some(states[k + 1]);
    if k == 0 {
      BeginIsBetween(states[0], events[0]);
    } else {
      InstallKeepsHeads(states, events, k);
      StepKeepsBetween(states[k], events[k], events[0].expected, NewHead(events[0]));
    }
  }

  lemma StepUnsettles(s: State, e: Event)
    requires Valid(s) && Next(s, e).Some? && PendingRename(Next(s, e).value.fs)
    ensures e.RenameHead? || (PendingRename(s.fs) && !e.SyncDirectory? && !e.Crash?)
  {
    if e.CreateFile? {
      assert s.fs.ops != [] ==> Next(s, e).value.fs.ops[0] == s.fs.ops[0];
    }
  }

  lemma StepUnsettlesIf(s: State, e: Event, s': State)
    ensures Valid(s) && Next(s, e) == Some(s') && PendingRename(s'.fs) ==>
              e.RenameHead? || (PendingRename(s.fs) && !e.SyncDirectory? && !e.Crash?)
  {
    if Valid(s) && Next(s, e) == Some(s') && PendingRename(s'.fs) {
      StepUnsettles(s, e);
    }
  }

  ghost predicate LastRename(events: seq<Event>, i: nat, j: nat)
    requires i < j <= |events|
  {
    events[i].RenameHead? && forall k :: i < k < j ==> !events[k].SyncDirectory? && !events[k].Crash?
  }

  ghost predicate UncoveredRename(events: seq<Event>, j: nat)
    requires j <= |events|
  {
    exists i :: 0 <= i < j && LastRename(events, i, j)
  }

  lemma StaysUncovered(events: seq<Event>, m: nat)
    requires m < |events| && UncoveredRename(events, m) && !events[m].SyncDirectory? && !events[m].Crash?
    ensures UncoveredRename(events, m + 1)
  {
    var i :| 0 <= i < m && LastRename(events, i, m);
    assert LastRename(events, i, m + 1);
  }

  /** The starting head is unsettled only when a rename was performed and nothing covered it since. */
  lemma {:induction false} UnsettledMeansUncoveredRename(states: seq<State>, events: seq<Event>, j: nat)
    requires Run(states, events) && states[0] == Fresh && j < |states|
    ensures PendingRename(states[j].fs) ==> UncoveredRename(events, j)
  {
    if j > 0 && PendingRename(states[j].fs) {
      var m := j - 1;
      RunKeepsValid(states, events, 0, m);
      assert Next(states[m], events[m]) == Some(states[m + 1]);
      StepUnsettlesIf(states[m], events[m], states[j]);
      if events[m].RenameHead? {
        assert LastRename(events, m, j);
      } else {
        UnsettledMeansUncoveredRename(states, events, m);
        StaysUncovered(events, m);
      }
    }
  }

  // ---------- an unsettled root ----------

  lemma RunSnoc(states: seq<State>, events: seq<Event>, e: Event, next: State) returns (states': seq<State>, events': seq<Event>)
    requires Run(states, events) && Next(states[|states| - 1], e) == Some(next)
    ensures states' == states + [next] && events' == events + [e] && Run(states', events')
  {
    states', events' := states + [next], events + [e];
    forall i | 0 <= i < |events'| ensures Next(states'[i], events'[i]) == Some(states'[i + 1]) {
      if i < |events| {
        assert states'[i] == states[i] && events'[i] == events[i] && states'[i + 1] == states[i + 1];
      }
    }
  }

  lemma OneOp(d: Directory, op: DirOp)
    ensures ApplyAll(d, [op]) == ApplyOp(d, op)
  {
    assert [op][1..] == [];
    assert ApplyAll(ApplyOp(d, op), []) == ApplyOp(d, op);
  }

  ghost function WithDocument(fs: Fs, job: Job, doc: Document, ino: Ino): Fs {
    Fs(fs.disk[JobName(job, doc) := ino], [], fs.files[ino := File(JobBytes(job, doc), true)])
  }

  lemma CreateStep(fs: Fs, job: Job, doc: Document, ino: Ino)
    requires fs.ops == [] && ino !in fs.files && JobName(job, doc) !in fs.disk && job.stage == Creating(doc)
    ensures Next(State(fs, Some(job)), CreateFile(ino)) ==
            Some(State(fs.(ops := [Link(JobName(job, doc), ino)], files := fs.files[ino := File(OtherBytes(0), false)]),
                       Some(job.(stage := Writing(doc, ino)))))
  {
    assert View(fs) == fs.disk && fs.ops + [Link(JobName(job, doc), ino)] == [Link(JobName(job, doc), ino)];
  }

  lemma FsyncStep(fs: Fs, job: Job, doc: Document, ino: Ino)
    requires ino in fs.files && fs.files[ino].content == JobBytes(job, doc)
    ensures Next(State(fs, Some(job.(stage := Writing(doc, ino)))), FsyncFile) ==
            Some(State(fs.(files := fs.files[ino := File(JobBytes(job, doc), true)]), Some(job.(stage := Flushed(doc, ino)))))
  {
  }

  lemma PublishStep(fs: Fs, job: Job, doc: Document, ino: Ino)
    requires fs.ops == [Link(JobName(job, doc), ino)]
    ensures Next(State(fs, Some(job.(stage := Flushed(doc, ino)))), SyncDirectory) ==
            Some(State(Fs(fs.disk[JobName(job, doc) := ino], [], fs.files), Some(job.(stage := AfterDocument(doc)))))
  {
    OneOp(fs.disk, Link(JobName(job, doc), ino));
  }

  /** The four steps that put one document on disk. */
  lemma WriteDocument(states: seq<State>, events: seq<Event>, fs: Fs, job: Job, doc: Document, ino: Ino)
    returns (states': seq<State>, events': seq<Event>)
    requires Run(states, events) && states[|states| - 1] == State(fs, Some(job)) && job.stage == Creating(doc)
    requires fs.ops == [] && ino !in fs.files && JobName(job, doc) !in fs.disk
    ensures Run(states', events') && states'[0] == states[0]
    ensures states'[|states'| - 1] == State(WithDocument(fs, job, doc, ino), Some(job.(stage := AfterDocument(doc))))
  {
    var bytes := JobBytes(job, doc);
    var created := fs.(ops := [Link(JobName(job, doc), ino)], files := fs.files[ino := File(OtherBytes(0), false)]);
    var written := created.(files := created.files[ino := File(bytes, false)]);
    var flushed := written.(files := written.files[ino := File(bytes, true)]);
    CreateStep(fs, job, doc, ino);
    states', events' := RunSnoc(states, events, CreateFile(ino), State(created, Some(job.(stage := Writing(doc, ino)))));
    states', events' := RunSnoc(states', events', WritePart(bytes), State(written, Some(job.(stage := Writing(doc, ino)))));
    FsyncStep(written, job, doc, ino);
    states', events' := RunSnoc(states', events', FsyncFile, State(flushed, Some(job.(stage := Flushed(doc, ino)))));
    PublishStep(flushed, job, doc, ino);
    assert flushed.files == fs.files[ino := File(bytes, true)];
    states', events' := RunSnoc(states', events', SyncDirectory,
                                State(WithDocument(fs, job, doc, ino), Some(job.(stage := AfterDocument(doc)))));
  }

  const FIRST := Certificate(1, 1, None, 1, InitialBind, 0)
  const SECOND := Certificate(2, 2, Some(Sha256(CertificateBytes(FIRST))), 1, ControlledRestart, 0)

  /**
   An install that fails right after its rename leaves the rename uncovered.  The next install, begun over
   the head that everyone sees, can then be cut short by a crash that shows no head at all.
   */
  lemma CrashMayShowNeitherHead() returns (states: seq<State>, events: seq<Event>)
    ensures Run(states, events) && states[0] == Fresh && events != []
    ensures var e, fs := events[|events| - 1], states[|states| - 1].fs;
            && e == Begin(CertificateBytes(SECOND), Some(HeadBytes(MakeHead(FIRST))))
            && |fs.ops| == 1 && CrashHead(fs, [false]) == None && !HeadWithin(fs, e.expected, NewHead(e))
  {
    var job := Job(FIRST, None, Creating(TheIntent));
    states, events := [Fresh], [];
    states, events := RunSnoc(states, events, Begin(CertificateBytes(FIRST), None), State(EmptyFs, Some(job)));
    states, events := WriteDocument(states, events, EmptyFs, job, TheIntent, 1);
    var fs := WithDocument(EmptyFs, job, TheIntent, 1);
    job := job.(stage := Creating(TheCertificate));
    states, events := WriteDocument(states, events, fs, job, TheCertificate, 2);
    fs := WithDocument(fs, job, TheCertificate, 2);
    job := job.(stage := Creating(ThePending));
    states, events := WriteDocument(states, events, fs, job, ThePending, 3);
    fs := WithDocument(fs, job, ThePending, 3);
    job := job.(stage := CheckingHead);
    states, events := LeaveRenamed(states, events, fs, job);
  }

  lemma LeaveRenamed(states: seq<State>, events: seq<Event>, fs: Fs, job: Job) returns (states': seq<State>, events': seq<Event>)
    requires Run(states, events) && states[|states| - 1] == State(fs, Some(job)) && job == Job(FIRST, None, CheckingHead)
    requires fs.ops == [] && HeadName !in fs.disk && PendingName(1) in fs.disk && fs.disk[PendingName(1)] in fs.files
    requires fs.files[fs.disk[PendingName(1)]] == File(HeadBytes(MakeHead(FIRST)), true)
    ensures Run(states', events') && states'[0] == states[0] && events' != []
    ensures var e, last := events'[|events'| - 1], states'[|states'| - 1].fs;
            && e == Begin(CertificateBytes(SECOND), Some(HeadBytes(MakeHead(FIRST))))
            && |last.ops| == 1 && CrashHead(last, [false]) == None && !HeadWithin(last, e.expected, NewHead(e))
  {
    var rename := Rename(PendingName(1), HeadName);
    var renamed := fs.(ops := [rename]);
    assert View(fs) == fs.disk && fs.ops + [rename] == [rename];
    OneOp(fs.disk, rename);
    states', events' := RunSnoc(states, events, RenameHead, State(renamed, Some(job.(stage := Renamed))));
    states', events' := RunSnoc(states', events', Abort, State(renamed, None));
    assert View(renamed)[HeadName] == fs.disk[PendingName(1)];
    states', events' := RunSnoc(states', events', Begin(CertificateBytes(SECOND), Some(HeadBytes(MakeHead(FIRST)))),
                                State(renamed, Some(Job(SECOND, Some(HeadBytes(MakeHead(FIRST))), Creating(TheIntent)))));
    assert Survivors([rename], [false]) == [];
    assert CrashHead(renamed, [false]) == None;
  }

  // ---------- the chain of certificates ----------

  /** The certificates from generation 1 up to `c`. */
  ghost function Ancestry(c: Certificate): seq<Certificate>
    decreases c
  {
    if c.generation > 1 && HasParent(c) then Ancestry(Parent(c)) + [c] else [c]
  }

  ghost function DiskChain(fs: Fs): seq<Certificate>
    requires ValidFs(fs)
  {
    if HeadName in fs.disk then Ancestry(HeadCertificate(fs, fs.disk[HeadName])) else []
  }

  /** Generations 1, 2, 3, ... with no gap, each naming the one before by hash, all present, no id twice. */
  ghost predicate GapFree(fs: Fs, chain: seq<Certificate>) {
    && (forall k :: 0 <= k < |chain| ==>
          && chain[k].generation == k + 1
          && Durable(fs, CertificateName(chain[k].id), CertificateBytes(chain[k]))
          && IntentFor(fs, chain[k].id))
    && (forall k :: 0 < k < |chain| ==> chain[k].predecessor == Some(Sha256(CertificateBytes(chain[k - 1]))))
    && (forall j, k :: 0 <= j < k < |chain| ==> chain[j].id != chain[k].id)
  }

  lemma {:induction false} LineageIsGapFree(fs: Fs, c: Certificate)
    requires Lineage(fs, c)
    ensures |Ancestry(c)| == c.generation && Ancestry(c)[c.generation - 1] == c && GapFree(fs, Ancestry(c))
    decreases c
  {
    if c.generation > 1 {
      LineageIsGapFree(fs, Parent(c));
    }
  }

  lemma DiskChainIsGapFree(fs: Fs)
    requires ValidFs(fs)
    ensures GapFree(fs, DiskChain(fs))
    ensures HeadName in fs.disk ==>
              ReadName(fs.disk, fs.files, HeadName) == Some(HeadBytes(MakeHead(DiskChain(fs)[|DiskChain(fs)| - 1])))
  {
    if HeadName in fs.disk {
      LineageIsGapFree(fs, HeadCertificate(fs, fs.disk[HeadName]));
    }
  }

  lemma FollowsAppends(fs: Fs, c: Certificate)
    requires ValidFs(fs) && Lineage(fs, c) && Follows(fs, c)
    ensures Ancestry(c) == DiskChain(fs) + [c]
  {
  }

  /** What a crash puts on disk is the durable chain, or that chain and one more certificate. */
  lemma CrashChain(fs: Fs, keep: seq<bool>, torn: map<Ino, Raw>)
    requires ValidFs(fs) && |keep| == |fs.ops|
    ensures ValidFs(AfterCrash(fs, keep, torn))
    ensures var chain := DiskChain(AfterCrash(fs, keep, torn));
            if PendingRename(fs) && keep[0]
            then chain == DiskChain(fs) + [HeadCertificate(fs, fs.disk[fs.ops[0].from])]
            else chain == DiskChain(fs)
  {
    CrashKeepsValid(fs, keep, torn);
    CrashedName(fs, keep, HeadName);
    var d := AfterCrash(fs, keep, torn);
    if PendingRename(fs) && keep[0] {
      HeadExtends(fs, d, fs.disk[fs.ops[0].from]);
      FollowsAppends(fs, HeadCertificate(fs, fs.disk[fs.ops[0].from]));
    } else if HeadName in fs.disk {
      HeadExtends(fs, d, fs.disk[HeadName]);
    }
  }

  /** The disk chain, read off the head's bytes. */
  lemma ChainOfHead(fs: Fs)
    requires ValidFs(fs)
    ensures DiskHead(fs).None? ==> DiskChain(fs) == []
    ensures DiskHead(fs).Some? ==>
              DiskHead(fs).value.HeadBytes? && DiskHead(fs).value.head.certificate.raw.CertificateBytes?
              && DiskChain(fs) == Ancestry(DiskHead(fs).value.head.certificate.raw.certificate)
  {
  }

  lemma RenamedChain(fs: Fs)
    requires ValidFs(fs)
    ensures RenamedHead(fs).None? ==> DiskHead(fs).None?
    ensures RenamedHead(fs).Some? ==>
              RenamedHead(fs).value.HeadBytes? && RenamedHead(fs).value.head.certificate.raw.CertificateBytes?
              && var chain := Ancestry(RenamedHead(fs).value.head.certificate.raw.certificate);
                 DiskChain(fs) <= chain && |chain| <= |DiskChain(fs)| + 1
  {
    if PendingRename(fs) {
      FollowsAppends(fs, HeadCertificate(fs, fs.disk[fs.ops[0].from]));
    }
  }

  lemma StepGrowsChain(s: State, e: Event)
    requires Valid(s) && Next(s, e).Some?
    ensures Valid(Next(s, e).value)
    ensures var before, after := DiskChain(s.fs), DiskChain(Next(s, e).value.fs);
            before <= after && |after| <= |before| + 1
  {
    StepMovesHeads(s, e);
    var fs, fs' := s.fs, Next(s, e).value.fs;
    ChainOfHead(fs);
    ChainOfHead(fs');
    RenamedChain(fs);
  }

  /**
   Over any history the durable heads are generations 1, 2, 3, ...: the durable chain only grows, by
   one certificate at a time, and every certificate it ever had is still present.
   */
  lemma {:induction false} DurableHeadsFormOneChain(states: seq<State>, events: seq<Event>, i: nat, j: nat)
    requires Run(states, events) && states[0] == Fresh && i <= j < |states|
    ensures Valid(states[i]) && Valid(states[j])
    ensures DiskChain(states[i].fs) <= DiskChain(states[j].fs)
    ensures j == i + 1 ==> |DiskChain(states[j].fs)| <= |DiskChain(states[i].fs)| + 1
    ensures GapFree(states[j].fs, DiskChain(states[j].fs))
    decreases j
  {
    RunKeepsValid(states, events, 0, i);
    RunKeepsValid(states, events, 0, j);
    DiskChainIsGapFree(states[j].fs);
    if i < j {
      var k := j - 1;
      DurableHeadsFormOneChain(states, events, i, k);
      assert Next(states[k], events[k]) == Some(states[k + 1]);
      StepGrowsChain(states[k], events[k]);
    }
  }

  /** Once an install has returned, no later crash shows a head from before it. */
  lemma ReturnedInstallIsPermanent(states: seq<State>, events: seq<Event>, i: nat, j: nat, keep: seq<bool>, torn: map<Ino, Raw>)
    requires Run(states, events) && states[0] == Fresh && i < j < |states| && events[i].Return?
    requires |keep| == |states[j].fs.ops|
    ensures states[i].job.Some? && ValidFs(AfterCrash(states[j].fs, keep, torn))
    ensures Ancestry(states[i].job.value.certificate) <= DiskChain(AfterCrash(states[j].fs, keep, torn))
  {
    assert Next(states[i], events[i]) == Some(states[i + 1]);
    DurableHeadsFormOneChain(states, events, i, j);
    assert DiskChain(states[i].fs) == Ancestry(states[i].job.value.certificate);
    CrashChain(states[j].fs, keep, torn);
  }

  // ---------- an intent is used once ----------

  ghost predicate PassesIntent(s: State, e: Event, id: Id) {
    && s.job.Some? && s.job.value.certificate.id == id
    && s.job.value.stage.Flushed? && s.job.value.stage.doc.TheIntent? && e.SyncDirectory?
  }

  lemma PassingPublishes(s: State, e: Event, id: Id)
    requires Valid(s) && PassesIntent(s, e, id) && Next(s, e).Some?
    ensures IntentName(id) in Next(s, e).value.fs.disk
  {
    SyncPublishes(s.fs, s.job.value);
  }

  lemma PublishedIsNotPassed(s: State, e: Event, id: Id)
    requires Valid(s) && IntentName(id) in s.fs.disk
    ensures !PassesIntent(s, e, id)
  {
  }

  /** Each certificate id gets past its durable intent at most once in any history. */
  lemma IntentPassedOnce(states: seq<State>, events: seq<Event>, i: nat, j: nat, id: Id)
    requires Run(states, events) && states[0] == Fresh && i < j < |events|
    requires PassesIntent(states[i], events[i], id)
    ensures !PassesIntent(states[j], events[j], id)
  {
    RunKeepsValid(states, events, 0, i);
    assert Next(states[i], events[i]) == Some(states[i + 1]);
    PassingPublishes(states[i], events[i], id);
    RunKeepsValid(states, events, 0, j);
    RunKeepsValid(states, events, 0, i + 1);
    RunKeepsValid(states, events, i + 1, j);
    PublishedIsNotPassed(states[j], events[j], id);
  }

  // ---------- two roots ----------

  /** What `read_current` accepts on one root: the head and the certificate that it names. */
  ghost function ReadCurrent(fs: Fs): Result<(Raw, Raw)> {
    var head := ReadHead(fs);
    if head.None? || !head.value.HeadBytes? || !ValidHead(head.value.head) then Refused
    else
      var certificate := ReadName(View(fs), fs.files, CertificateName(head.value.head.id));
      if || certificate.None? || !certificate.value.CertificateBytes?
         || !ValidCertificate(certificate.value.certificate)
         || Sha256(certificate.value) != head.value.head.certificate
         || HeadBytes(MakeHead(certificate.value.certificate)) != head.value
      then Refused
      else Ok((head.value, certificate.value))
  }

  ghost function ReadPair(left: Fs, right: Fs): Result<((Raw, Raw), (Raw, Raw))> {
    var l, r := ReadCurrent(left), ReadCurrent(right);
    if l.Refused? || r.Refused? || l.value.0 != r.value.0 || l.value.1 != r.value.1 then Refused
    else Ok((l.value, r.value))
  }

  lemma ValidPairAgrees(left: Fs, right: Fs)
    requires ValidFs(left) && ValidFs(right) && ReadPair(left, right).Ok?
    ensures ReadHead(left) == ReadHead(right)
    ensures ReadHead(left).Some? && ReadHead(left).value.HeadBytes?
            && ReadHead(left).value.head.certificate.raw.CertificateBytes?
    ensures var c := ReadHead(left).value.head.certificate.raw.certificate;
            && ReadPair(left, right).value.0 == (HeadBytes(MakeHead(c)), CertificateBytes(c))
            && |Ancestry(c)| == c.generation
            && (forall k :: 0 <= k < |Ancestry(c)| ==>
                  && Durable(left, CertificateName(Ancestry(c)[k].id), CertificateBytes(Ancestry(c)[k]))
                  && Durable(right, CertificateName(Ancestry(c)[k].id), CertificateBytes(Ancestry(c)[k])))
  {
    ViewName(left, HeadName);
    ViewName(right, HeadName);
    var c := ReadHead(left).value.head.certificate.raw.certificate;
    LineageIsGapFree(left, c);
    LineageIsGapFree(right, c);
  }

  lemma HeadIsReadable(fs: Fs)
    requires ValidFs(fs)
    ensures ReadCurrent(fs).Ok? <==> HeadName in View(fs)
  {
    ViewName(fs, HeadName);
    if HeadName in View(fs) {
      var c := ReadHead(fs).value.head.certificate.raw.certificate;
      ViewName(fs, CertificateName(c.id));
    }
  }

  /**
   Two roots that `read_pair` accepts, each with any history of its own, hold the same head, and the
   same bytes for every certificate back to generation 1.
   */
  lemma AcceptedPairAgrees(leftStates: seq<State>, leftEvents: seq<Event>, i: nat,
                           rightStates: seq<State>, rightEvents: seq<Event>, j: nat)
    requires Run(leftStates, leftEvents) && leftStates[0] == Fresh && i < |leftStates|
    requires Run(rightStates, rightEvents) && rightStates[0] == Fresh && j < |rightStates|
    requires ReadPair(leftStates[i].fs, rightStates[j].fs).Ok?
    ensures var left, right := leftStates[i].fs, rightStates[j].fs;
            && ReadHead(left) == ReadHead(right) && ReadHead(left).Some? && ReadHead(left).value.HeadBytes?
            && ReadHead(left).value.head.certificate.raw.CertificateBytes?
            && var c := ReadHead(left).value.head.certificate.raw.certificate;
            && ReadPair(left, right).value.0 == (HeadBytes(MakeHead(c)), CertificateBytes(c))
            && |Ancestry(c)| == c.generation
            && (forall k :: 0 <= k < |Ancestry(c)| ==>
                  && Durable(left, CertificateName(Ancestry(c)[k].id), CertificateBytes(Ancestry(c)[k]))
                  && Durable(right, CertificateName(Ancestry(c)[k].id), CertificateBytes(Ancestry(c)[k])))
  {
    RunKeepsValid(leftStates, leftEvents, 0, i);
    RunKeepsValid(rightStates, rightEvents, 0, j);
    ValidPairAgrees(leftStates[i].fs, rightStates[j].fs);
  }

  /** The reader accepts a root at any point of any history exactly when its head is set. */
  lemma CurrentIsReadable(states: seq<State>, events: seq<Event>, i: nat)
    requires Run(states, events) && states[0] == Fresh && i < |states|
    ensures ReadCurrent(states[i].fs).Ok? <==> HeadName in View(states[i].fs)
  {
    RunKeepsValid(states, events, 0, i);
    HeadIsReadable(states[i].fs);
  }
}
