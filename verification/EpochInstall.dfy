/**
 The closed documents of an epoch root: certificates, heads and install intents.

 Canonical JSON is a bijection between accepted byte strings and values, so a byte string is
 modelled by the value it decodes to; every other byte string is `OtherBytes`.  SHA-256 is modelled
 by the constructor `Sha256`, which is injective.
 */
module EpochDocuments {
  import opened Prelude

  type Id = nat

  const MAX_GENERATION := 0x7FFF_FFFF_FFFF_FFFF

  datatype Reason = InitialBind | ControlledRestart | HealthyReseed

  datatype Digest = Sha256(raw: Raw)

  datatype Raw =
    | CertificateBytes(certificate: Certificate)
    | HeadBytes(head: Head)
    | IntentBytes(intent: Intent)
    | OtherBytes(tag: nat)

  /** `evidence` stands for the subject and provenance fields that no transition rule compares. */
  datatype Certificate = Certificate(
    id: Id, generation: int, predecessor: Option<Digest>, managedEpoch: Id, reason: Reason, evidence: nat)

  datatype Head = Head(
    managedEpoch: Id, id: Id, certificate: Digest, generation: int, predecessor: Option<Digest>)

  datatype Intent = Intent(
    id: Id, certificate: Digest, generation: int, predecessor: Option<Digest>,
    expectedHead: Option<Digest>, intendedHead: Digest)

  predicate ValidLineage(generation: int, predecessor: Option<Digest>) {
    && 1 <= generation <= MAX_GENERATION
    && (generation == 1 <==> predecessor.None?)
  }

  predicate ValidCertificate(c: Certificate) {
    && ValidLineage(c.generation, c.predecessor)
    && (c.reason.InitialBind? <==> c.generation == 1)
  }

  predicate ValidHead(h: Head) {
    ValidLineage(h.generation, h.predecessor)
  }

  function MakeHead(c: Certificate): Head {
    Head(c.managedEpoch, c.id, Sha256(CertificateBytes(c)), c.generation, c.predecessor)
  }

  function MakeIntent(c: Certificate, expected: Option<Raw>): Intent {
    Intent(c.id, Sha256(CertificateBytes(c)), c.generation, c.predecessor,
           if expected.None? then None else Some(Sha256(expected.value)), Sha256(HeadBytes(MakeHead(c))))
  }

  /** The head an install of `raw` over `expected` would write, or a refusal. */
  function ValidateTransition(raw: Raw, expected: Option<Raw>): Result<Head> {
    if !raw.CertificateBytes? || !ValidCertificate(raw.certificate) then Refused
    else
      var c := raw.certificate;
      if expected.None? then
        if c.generation == 1 then Ok(MakeHead(c)) else Refused
      else if !expected.value.HeadBytes? || !ValidHead(expected.value.head) then Refused
      else
        var prior := expected.value.head;
        if && prior.generation < MAX_GENERATION && c.generation == prior.generation + 1
           && c.predecessor == Some(prior.certificate) && c.id != prior.id
           && !c.reason.InitialBind?
           && (c.reason.ControlledRestart? <==> c.managedEpoch == prior.managedEpoch)
        then Ok(MakeHead(c)) else Refused
  }
}

/**
 One epoch root directory and the installers that take turns on it under the lock.

 The directory has a durable part (`disk`), a list of directory operations that no directory fsync has
 covered yet (`ops`), and files whose content is durable only after an fsync.  A crash may drop any
 subset of `ops` and may leave any bytes in a file that was not fsynced.
 */
module EpochRoot {
  import opened Prelude
  import opened EpochDocuments

  type Ino = nat

  datatype Name = HeadName | CertificateName(id: Id) | PendingName(id: Id) | IntentName(id: Id)

  datatype DirOp = Link(name: Name, ino: Ino) | Rename(from: Name, to: Name)

  datatype File = File(content: Raw, synced: bool)

  type Directory = map<Name, Ino>

  datatype Fs = Fs(disk: Directory, ops: seq<DirOp>, files: map<Ino, File>)

  const EmptyFs := Fs(map[], [], map[])

  function ApplyOp(d: Directory, op: DirOp): Directory {
    match op
    case Link(name, ino) => d[name := ino]
    case Rename(from, to) => if from in d then (d - {from})[to := d[from]] else d
  }

  function ApplyAll(d: Directory, ops: seq<DirOp>): Directory
    decreases |ops|
  {
    if ops == [] then d else ApplyAll(ApplyOp(d, ops[0]), ops[1..])
  }

  /** The directory as running processes see it. */
  function View(fs: Fs): Directory {
    ApplyAll(fs.disk, fs.ops)
  }

  function ReadName(d: Directory, files: map<Ino, File>, name: Name): Option<Raw> {
    if name in d && d[name] in files then Some(files[d[name]].content) else None
  }

  function ReadHead(fs: Fs): Option<Raw> {
    ReadName(View(fs), fs.files, HeadName)
  }

  function Survivors(ops: seq<DirOp>, keep: seq<bool>): seq<DirOp>
    requires |keep| == |ops|
  {
    if ops == [] then []
    else (if keep[0] then [ops[0]] else []) + Survivors(ops[1..], keep[1..])
  }

  /** What the disk holds after a crash: surviving operations, and arbitrary bytes in unsynced files. */
  function AfterCrash(fs: Fs, keep: seq<bool>, torn: map<Ino, Raw>): Fs
    requires |keep| == |fs.ops|
  {
    Fs(ApplyAll(fs.disk, Survivors(fs.ops, keep)), [],
       map i | i in fs.files ::
         File(if fs.files[i].synced || i !in torn then fs.files[i].content else torn[i], true))
  }

  /** The three files an install creates, in this order. */
  datatype Document = TheIntent | TheCertificate | ThePending

  /** Where a running install stands between two system calls. */
  datatype Stage =
    | Creating(doc: Document)
    | Writing(doc: Document, ino: Ino)
    | Flushed(doc: Document, ino: Ino)
    | CheckingHead
    | Renamed
    | Installed

  datatype Job = Job(certificate: Certificate, expected: Option<Raw>, stage: Stage)

  function JobName(job: Job, doc: Document): Name {
    match doc
    case TheIntent => IntentName(job.certificate.id)
    case TheCertificate => CertificateName(job.certificate.id)
    case ThePending => PendingName(job.certificate.id)
  }

  function JobBytes(job: Job, doc: Document): Raw {
    match doc
    case TheIntent => IntentBytes(MakeIntent(job.certificate, job.expected))
    case TheCertificate => CertificateBytes(job.certificate)
    case ThePending => HeadBytes(MakeHead(job.certificate))
  }

  function AfterDocument(doc: Document): Stage {
    match doc
    case TheIntent => Creating(TheCertificate)
    case TheCertificate => Creating(ThePending)
    case ThePending => CheckingHead
  }

  /** `job` is the install that holds the lock; other installers are refused by the lock and change nothing. */
  datatype State = State(fs: Fs, job: Option<Job>)

  const Fresh := State(EmptyFs, None)

  /** Each event is one system call, one failure, or one crash. */
  datatype Event =
    | Begin(raw: Raw, expected: Option<Raw>)
    | CreateFile(ino: Ino)
    | WritePart(part: Raw)
    | FsyncFile
    | SyncDirectory
    | RenameHead
    | Return
    | Abort
    | Crash(keep: seq<bool>, torn: map<Ino, Raw>)

  /** The state after event `e`, or None when the program cannot perform `e` in `s`. */
  function Next(s: State, e: Event): Option<State> {
    match e
    case Crash(keep, torn) =>
      if |keep| == |s.fs.ops| then Some(State(AfterCrash(s.fs, keep, torn), None)) else None
    case Begin(raw, expected) =>
      if s.job.None? && ValidateTransition(raw, expected).Ok? && ReadHead(s.fs) == expected
      then Some(s.(job := Some(Job(raw.certificate, expected, Creating(TheIntent)))))
      else None
    case _ => if s.job.None? then None else Advance(s.fs, s.job.value, e)
  }

  function Advance(fs: Fs, job: Job, e: Event): Option<State> {
    match (e, job.stage)
    case (Abort, _) => Some(State(fs, None))
    case (CreateFile(ino), Creating(doc)) =>
      var name := JobName(job, doc);
      if ino in fs.files || name in View(fs) then None
      else Some(State(fs.(ops := fs.ops + [Link(name, ino)], files := fs.files[ino := File(OtherBytes(0), false)]),
                      Some(job.(stage := Writing(doc, ino)))))
    case (WritePart(part), Writing(doc, ino)) =>
      Some(State(fs.(files := fs.files[ino := File(part, false)]), Some(job)))
    case (FsyncFile, Writing(doc, ino)) =>
      if ino in fs.files && fs.files[ino].content == JobBytes(job, doc)
      then Some(State(fs.(files := fs.files[ino := fs.files[ino].(synced := true)]),
                      Some(job.(stage := Flushed(doc, ino)))))
      else None
    case (SyncDirectory, Flushed(doc, ino)) =>
      Some(State(fs.(disk := View(fs), ops := []), Some(job.(stage := AfterDocument(doc)))))
    case (RenameHead, CheckingHead) =>
      if && ReadHead(fs) == job.expected
         && ReadName(View(fs), fs.files, JobName(job, ThePending)) == Some(JobBytes(job, ThePending))
      then Some(State(fs.(ops := fs.ops + [Rename(JobName(job, ThePending), HeadName)]),
                      Some(job.(stage := Renamed))))
      else None
    case (SyncDirectory, Renamed) =>
      Some(State(fs.(disk := View(fs), ops := []), Some(job.(stage := Installed))))
    case (Return, Installed) =>
      if ReadHead(fs) == Some(JobBytes(job, ThePending)) then Some(State(fs, None)) else None
    case _ => None
  }
}
