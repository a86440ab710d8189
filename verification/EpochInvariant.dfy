/** What every step of every installer, and every crash, keeps on an epoch root. */
module EpochInvariant {
  import opened Prelude
  import opened EpochDocuments
  import opened EpochRoot

  /** `name` is on disk with exactly these bytes, and no crash can take that away. */
  ghost predicate Durable(fs: Fs, name: Name, raw: Raw) {
    && name in fs.disk && fs.disk[name] in fs.files
    && fs.files[fs.disk[name]] == File(raw, true)
  }

  ghost predicate IntentFor(fs: Fs, id: Id) {
    && IntentName(id) in fs.disk && fs.disk[IntentName(id)] in fs.files
    && fs.files[fs.disk[IntentName(id)]].synced
    && fs.files[fs.disk[IntentName(id)]].content.IntentBytes?
    && fs.files[fs.disk[IntentName(id)]].content.intent.id == id
  }

  ghost predicate CertificateFor(fs: Fs, id: Id) {
    && CertificateName(id) in fs.disk && fs.disk[CertificateName(id)] in fs.files
    && fs.files[fs.disk[CertificateName(id)]].synced
    && fs.files[fs.disk[CertificateName(id)]].content.CertificateBytes?
    && fs.files[fs.disk[CertificateName(id)]].content.certificate.id == id
  }

  /** The certificate whose hash `c` names as its predecessor, when that hash is a certificate's. */
  ghost predicate HasParent(c: Certificate) {
    && c.predecessor.Some? && c.predecessor.value.raw.CertificateBytes?
    && c.predecessor.value.raw.certificate.generation == c.generation - 1
    && c.predecessor.value.raw.certificate.id != c.id
  }

  ghost function Parent(c: Certificate): Certificate
    requires HasParent(c)
  {
    c.predecessor.value.raw.certificate
  }

  /** `c` and all certificates back to generation 1 are durable, each with a durable intent. */
  ghost predicate Lineage(fs: Fs, c: Certificate)
    decreases c
  {
    && ValidCertificate(c)
    && Durable(fs, CertificateName(c.id), CertificateBytes(c))
    && IntentFor(fs, c.id)
    && (c.generation > 1 ==> HasParent(c) && Lineage(fs, Parent(c)))
  }

  ghost predicate HeadWithLineage(fs: Fs, ino: Ino) {
    && ino in fs.files && fs.files[ino].synced && fs.files[ino].content.HeadBytes?
    && var h := fs.files[ino].content.head;
    && h.certificate.raw.CertificateBytes?
    && h == MakeHead(h.certificate.raw.certificate)
    && Lineage(fs, h.certificate.raw.certificate)
  }

  ghost function HeadCertificate(fs: Fs, ino: Ino): Certificate
    requires HeadWithLineage(fs, ino)
  {
    fs.files[ino].content.head.certificate.raw.certificate
  }

  ghost predicate IsRename(op: DirOp) {
    op.Rename? && op.from.PendingName? && op.to.HeadName?
  }

  ghost predicate PendingRename(fs: Fs) {
    fs.ops != [] && fs.ops[0].Rename?
  }

  /** Only the first uncovered operation can be a rename; all others are links of new, distinct names. */
  ghost predicate OpsShape(fs: Fs) {
    && (PendingRename(fs) ==> IsRename(fs.ops[0]) && fs.ops[0].from in fs.disk)
    && (forall k :: 0 <= k < |fs.ops| && (k > 0 || fs.ops[0].Link?) ==>
          fs.ops[k].Link? && !fs.ops[k].name.HeadName? && fs.ops[k].name !in fs.disk && fs.ops[k].ino in fs.files)
    && (forall j, k :: 0 <= j < k < |fs.ops| && fs.ops[j].Link? && fs.ops[k].Link? ==> fs.ops[j].name != fs.ops[k].name)
  }

  ghost predicate Linked(fs: Fs, name: Name) {
    exists k :: 0 <= k < |fs.ops| && fs.ops[k].Link? && fs.ops[k].name == name
  }

  /** The name is on disk or may get there. */
  ghost predicate Known(fs: Fs, name: Name) {
    name in fs.disk || Linked(fs, name)
  }

  ghost predicate ValidFs(fs: Fs) {
    && (forall n :: n in fs.disk ==> fs.disk[n] in fs.files)
    && OpsShape(fs)
    && (forall id :: Known(fs, CertificateName(id)) ==> IntentFor(fs, id))
    && (forall id :: Known(fs, PendingName(id)) ==> CertificateFor(fs, id))
    && (HeadName in fs.disk ==> HeadWithLineage(fs, fs.disk[HeadName]))
    && (PendingRename(fs) ==>
          && HeadWithLineage(fs, fs.disk[fs.ops[0].from])
          && Follows(fs, HeadCertificate(fs, fs.disk[fs.ops[0].from])))
  }

  /** `c` continues the head on disk by exactly one generation. */
  ghost predicate Follows(fs: Fs, c: Certificate) {
    if HeadName in fs.disk then
      && HeadWithLineage(fs, fs.disk[HeadName])
      && HasParent(c) && Parent(c) == HeadCertificate(fs, fs.disk[HeadName])
    else c.generation == 1
  }

  ghost predicate ValidStage(fs: Fs, job: Job) {
    match job.stage
    case Creating(doc) => doc.TheIntent? || (fs.ops == [] && JobDurable(fs, job, doc))
    case Writing(doc, ino) =>
      && JobDurable(fs, job, doc)
      && JobName(job, doc) !in fs.disk
      && ino in fs.files && !fs.files[ino].synced
      && fs.ops != [] && fs.ops[|fs.ops| - 1] == Link(JobName(job, doc), ino)
      && (!doc.TheIntent? ==> |fs.ops| == 1)
    case Flushed(doc, ino) =>
      && JobDurable(fs, job, doc)
      && JobName(job, doc) !in fs.disk
      && ino in fs.files && fs.files[ino] == File(JobBytes(job, doc), true)
      && fs.ops != [] && fs.ops[|fs.ops| - 1] == Link(JobName(job, doc), ino)
      && (!doc.TheIntent? ==> |fs.ops| == 1)
    case CheckingHead =>
      && fs.ops == [] && JobDurable(fs, job, ThePending)
      && Durable(fs, PendingName(job.certificate.id), JobBytes(job, ThePending))
    case Renamed =>
      && JobDurable(fs, job, ThePending)
      && fs.ops == [Rename(PendingName(job.certificate.id), HeadName)]
      && Durable(fs, PendingName(job.certificate.id), JobBytes(job, ThePending))
    case Installed =>
      && JobDurable(fs, job, ThePending) && fs.ops == []
      && Durable(fs, HeadName, JobBytes(job, ThePending))
  }

  /** The documents before `doc` are durable with the bytes this install gave them. */
  ghost predicate JobDurable(fs: Fs, job: Job, doc: Document) {
    && (!doc.TheIntent? ==> Durable(fs, JobName(job, TheIntent), JobBytes(job, TheIntent)))
    && (doc.ThePending? ==> Durable(fs, JobName(job, TheCertificate), JobBytes(job, TheCertificate)))
  }

  ghost predicate ValidJob(fs: Fs, job: Job) {
    && ValidateTransition(CertificateBytes(job.certificate), job.expected).Ok?
    && ValidStage(fs, job)
    && (!job.stage.Renamed? && !job.stage.Installed? ==> ReadHead(fs) == job.expected)
  }

  ghost predicate Valid(s: State) {
    ValidFs(s.fs) && (s.job.Some? ==> ValidJob(s.fs, s.job.value))
  }

  // ---------- directory operations ----------

  lemma {:induction false} ApplyAllAppend(d: Directory, ops: seq<DirOp>, op: DirOp)
    ensures ApplyAll(d, ops + [op]) == ApplyOp(ApplyAll(d, ops), op)
    decreases |ops|
  {
    if ops == [] {
      assert [op][1..] == [];
      assert ApplyAll(d, [op]) == ApplyAll(ApplyOp(d, op), []);
    } else {
      assert (ops + [op])[1..] == ops[1..] + [op];
      ApplyAllAppend(ApplyOp(d, ops[0]), ops[1..], op);
    }
  }

  ghost predicate Links(ops: seq<DirOp>) {
    forall k :: 0 <= k < |ops| ==> ops[k].Link?
  }

  /** Applying links of names that are absent adds exactly those names. */
  lemma {:induction false} ApplyLinks(d: Directory, ops: seq<DirOp>, name: Name)
    requires Links(ops)
    requires forall k :: 0 <= k < |ops| ==> ops[k].name !in d
    requires forall j, k :: 0 <= j < k < |ops| ==> ops[j].name != ops[k].name
    ensures name in d ==> name in ApplyAll(d, ops) && ApplyAll(d, ops)[name] == d[name]
    ensures forall k :: 0 <= k < |ops| && ops[k].name == name ==>
              name in ApplyAll(d, ops) && ApplyAll(d, ops)[name] == ops[k].ino
    ensures name in ApplyAll(d, ops) && name !in d ==> exists k :: 0 <= k < |ops| && ops[k].name == name
    decreases |ops|
  {
    if ops != [] {
      var d1 := ApplyOp(d, ops[0]);
      assert d1 == d[ops[0].name := ops[0].ino];
      var rest := ops[1..];
      forall k | 0 <= k < |rest| ensures rest[k].Link? && rest[k].name !in d1 {
        assert rest[k] == ops[k + 1];
      }
      forall j, k | 0 <= j < k < |rest| ensures rest[j].name != rest[k].name {
        assert rest[j] == ops[j + 1] && rest[k] == ops[k + 1];
      }
      ApplyLinks(d1, rest, name);
      forall k | 0 <= k < |ops| && ops[k].name == name
        ensures name in ApplyAll(d, ops) && ApplyAll(d, ops)[name] == ops[k].ino
      {
        if k > 0 {
          assert rest[k - 1] == ops[k];
        }
      }
      if name in ApplyAll(d, ops) && name !in d {
        if name != ops[0].name {
          var k :| 0 <= k < |rest| && rest[k].name == name;
          assert ops[k + 1].name == name;
        }
      }
    }
  }

  lemma {:induction false} SurvivorsAreOps(ops: seq<DirOp>, keep: seq<bool>)
    requires |keep| == |ops|
    ensures forall x :: x in Survivors(ops, keep) ==> x in ops
    ensures |Survivors(ops, keep)| <= |ops|
    ensures Links(ops) ==> Links(Survivors(ops, keep))
  {
    if ops != [] {
      SurvivorsAreOps(ops[1..], keep[1..]);
      forall x | x in Survivors(ops, keep) ensures x in ops {
        if x != ops[0] {
          assert x in Survivors(ops[1..], keep[1..]);
          assert x in ops[1..];
        }
      }
      if Links(ops) {
        forall k | 0 <= k < |Survivors(ops, keep)| ensures Survivors(ops, keep)[k].Link? {
          assert Survivors(ops, keep)[k] in ops;
        }
      }
    }
  }

  lemma {:induction false} SurvivorsDistinct(ops: seq<DirOp>, keep: seq<bool>)
    requires |keep| == |ops| && Links(ops)
    requires forall j, k :: 0 <= j < k < |ops| ==> ops[j].name != ops[k].name
    ensures Links(Survivors(ops, keep))
    ensures var t := Survivors(ops, keep);
            Links(t) && forall j, k :: 0 <= j < k < |t| ==> t[j].name != t[k].name
  {
    SurvivorsAreOps(ops, keep);
    if ops != [] {
      var rest := ops[1..];
      forall j, k | 0 <= j < k < |rest| ensures rest[j].name != rest[k].name {
        assert rest[j] == ops[j + 1] && rest[k] == ops[k + 1];
      }
      assert Links(rest) by {
        forall k | 0 <= k < |rest| ensures rest[k].Link? { assert rest[k] == ops[k + 1]; }
      }
      SurvivorsDistinct(rest, keep[1..]);
      SurvivorsAreOps(rest, keep[1..]);
      var t := Survivors(ops, keep);
      var u := Survivors(rest, keep[1..]);
      forall j, k | 0 <= j < k < |t| ensures t[j].name != t[k].name {
        if keep[0] {
          assert t[k] == u[k - 1];
          if j == 0 {
            assert u[k - 1] in rest;
            var i :| 0 <= i < |rest| && rest[i] == u[k - 1];
            assert ops[i + 1] == u[k - 1];
          } else {
            assert t[j] == u[j - 1];
          }
        } else {
          assert t == u;
        }
      }
    }
  }

  ghost function Base(fs: Fs, renamed: bool): Directory
    requires renamed ==> PendingRename(fs)
  {
    if renamed then ApplyOp(fs.disk, fs.ops[0]) else fs.disk
  }

  ghost function LinkOps(fs: Fs): seq<DirOp> {
    if PendingRename(fs) then fs.ops[1..] else fs.ops
  }

  /** The uncovered operations are at most one rename followed by links of new names. */
  lemma LinkOpsShape(fs: Fs)
    requires ValidFs(fs)
    ensures var links := LinkOps(fs);
            && Links(links)
            && (forall j, k :: 0 <= j < k < |links| ==> links[j].name != links[k].name)
            && (forall k :: 0 <= k < |links| ==>
                  links[k].name !in fs.disk && !links[k].name.HeadName? && links[k].ino in fs.files && Linked(fs, links[k].name))
            && (forall name :: Linked(fs, name) ==> exists k :: 0 <= k < |links| && links[k].name == name)
  {
    var links := LinkOps(fs);
    var shift := if PendingRename(fs) then 1 else 0;
    assert forall k :: 0 <= k < |links| ==> links[k] == fs.ops[k + shift];
    forall name | Linked(fs, name) ensures exists k :: 0 <= k < |links| && links[k].name == name {
      var i :| 0 <= i < |fs.ops| && fs.ops[i].Link? && fs.ops[i].name == name;
      assert links[i - shift].name == name;
    }
    forall k | 0 <= k < |links|
      ensures links[k].Link? && links[k].name !in fs.disk && !links[k].name.HeadName?
              && links[k].ino in fs.files && Linked(fs, links[k].name)
    {
      assert fs.ops[k + shift].Link?;
    }
  }

  lemma SurvivorsSplit(fs: Fs, keep: seq<bool>)
    requires ValidFs(fs) && |keep| == |fs.ops|
    ensures var keeps := if PendingRename(fs) then keep[1..] else keep;
            ApplyAll(fs.disk, Survivors(fs.ops, keep))
            == ApplyAll(Base(fs, PendingRename(fs) && keep[0]), Survivors(LinkOps(fs), keeps))
  {
    if PendingRename(fs) {
      var t := Survivors(fs.ops[1..], keep[1..]);
      if keep[0] {
        assert Survivors(fs.ops, keep) == [fs.ops[0]] + t;
        assert ([fs.ops[0]] + t)[1..] == t;
      } else {
        assert Survivors(fs.ops, keep) == [] + t == t;
      }
    }
  }

  /**
   A directory that a crash can leave, read at one name: the head is the one on disk or the one an
   uncovered rename names; another name keeps its file, except the pending name of that rename; a name
   not on disk can only come from an uncovered link.
   */
  ghost predicate NameAfter(fs: Fs, d: Directory, renamed: bool, name: Name)
    requires renamed ==> PendingRename(fs) && fs.ops[0].from in fs.disk
  {
    && (name in d ==> d[name] in fs.files)
    && (name.HeadName? ==>
          if renamed then name in d && d[name] == fs.disk[fs.ops[0].from]
          else (name in d <==> name in fs.disk) && (name in d ==> d[name] == fs.disk[name]))
    && (!name.HeadName? && name in fs.disk && !(renamed && name == fs.ops[0].from) ==>
          name in d && d[name] == fs.disk[name])
    && (!name.HeadName? && name in d && name !in fs.disk ==> Linked(fs, name))
    && (!name.HeadName? && name in d && name in fs.disk ==> d[name] == fs.disk[name])
    && (renamed && name == fs.ops[0].from ==> name !in d)
  }

  lemma NameAfterLinks(fs: Fs, renamed: bool, t: seq<DirOp>, name: Name)
    requires ValidFs(fs) && (renamed ==> PendingRename(fs))
    requires Links(t)
    requires forall j, k :: 0 <= j < k < |t| ==> t[j].name != t[k].name
    requires forall k :: 0 <= k < |t| ==>
               t[k].name !in fs.disk && !t[k].name.HeadName? && t[k].ino in fs.files && Linked(fs, t[k].name)
    ensures NameAfter(fs, ApplyAll(Base(fs, renamed), t), renamed, name)
    ensures forall k :: 0 <= k < |t| && t[k].name == name ==> name in ApplyAll(Base(fs, renamed), t)
  {
    ApplyLinks(Base(fs, renamed), t, name);
  }

  lemma CrashedName(fs: Fs, keep: seq<bool>, name: Name)
    requires ValidFs(fs) && |keep| == |fs.ops|
    ensures NameAfter(fs, ApplyAll(fs.disk, Survivors(fs.ops, keep)), PendingRename(fs) && keep[0], name)
  {
    var links := LinkOps(fs);
    var keeps := if PendingRename(fs) then keep[1..] else keep;
    LinkOpsShape(fs);
    SurvivorsDistinct(links, keeps);
    SurvivorsAreOps(links, keeps);
    SurvivorsSplit(fs, keep);
    var t := Survivors(links, keeps);
    forall k | 0 <= k < |t|
      ensures t[k].name !in fs.disk && !t[k].name.HeadName? && t[k].ino in fs.files && Linked(fs, t[k].name)
    {
      assert t[k] in links;
    }
    NameAfterLinks(fs, PendingRename(fs) && keep[0], Survivors(links, keeps), name);
  }

  /** The running view, read at one name. */
  lemma ViewName(fs: Fs, name: Name)
    requires ValidFs(fs)
    ensures NameAfter(fs, View(fs), PendingRename(fs), name)
    ensures Linked(fs, name) ==> name in View(fs)
  {
    LinkOpsShape(fs);
    NameAfterLinks(fs, PendingRename(fs), LinkOps(fs), name);
  }

  // ---------- what only grows ----------

  /** Fsynced files and the certificate and intent names on disk are never lost or changed. */
  ghost predicate Extends(fs: Fs, fs': Fs) {
    && (forall i :: i in fs.files && fs.files[i].synced ==> i in fs'.files && fs'.files[i] == fs.files[i])
    && (forall n :: n in fs.disk && (n.CertificateName? || n.IntentName?) ==>
          n in fs'.disk && fs'.disk[n] == fs.disk[n])
  }

  lemma {:induction false} LineageExtends(fs: Fs, fs': Fs, c: Certificate)
    requires Extends(fs, fs') && Lineage(fs, c)
    ensures Lineage(fs', c)
    decreases c
  {
    if c.generation > 1 {
      LineageExtends(fs, fs', Parent(c));
    }
  }

  lemma HeadExtends(fs: Fs, fs': Fs, ino: Ino)
    requires Extends(fs, fs') && HeadWithLineage(fs, ino)
    ensures HeadWithLineage(fs', ino) && HeadCertificate(fs', ino) == HeadCertificate(fs, ino)
  {
    LineageExtends(fs, fs', fs.files[ino].content.head.certificate.raw.certificate);
  }

  /** The parts of `ValidFs` that a step keeps when the disk names it may change stay the same. */
  lemma SameDiskKeepsValid(fs: Fs, fs': Fs)
    requires ValidFs(fs) && Extends(fs, fs') && fs'.disk == fs.disk
    requires forall i :: i in fs.files ==> i in fs'.files
    requires OpsShape(fs')
    requires PendingRename(fs') ==> PendingRename(fs) && fs'.ops[0] == fs.ops[0]
    requires forall n :: Linked(fs', n) && !Linked(fs, n) ==>
               match n
               case CertificateName(id) => IntentFor(fs', id)
               case PendingName(id) => CertificateFor(fs', id)
               case _ => true
    ensures ValidFs(fs')
  {
    if HeadName in fs.disk {
      HeadExtends(fs, fs', fs.disk[HeadName]);
    }
    if PendingRename(fs') {
      HeadExtends(fs, fs', fs.disk[fs.ops[0].from]);
    }
  }

  /** Any directory of the form `NameAfter` describes, put on disk with nothing uncovered, is valid. */
  lemma SettledKeepsValid(fs: Fs, fs': Fs, renamed: bool)
    requires ValidFs(fs) && (renamed ==> PendingRename(fs))
    requires fs'.ops == [] && fs'.files.Keys == fs.files.Keys
    requires forall i :: i in fs.files && fs.files[i].synced ==> fs'.files[i] == fs.files[i]
    requires forall n :: NameAfter(fs, fs'.disk, renamed, n)
    ensures Extends(fs, fs') && ValidFs(fs')
  {
    forall n | n in fs.disk && (n.CertificateName? || n.IntentName?)
      ensures n in fs'.disk && fs'.disk[n] == fs.disk[n]
    {
      assert NameAfter(fs, fs'.disk, renamed, n);
    }
    forall id | Known(fs', CertificateName(id)) ensures IntentFor(fs', id) {
      assert NameAfter(fs, fs'.disk, renamed, CertificateName(id));
      assert Known(fs, CertificateName(id));
    }
    forall id | Known(fs', PendingName(id)) ensures CertificateFor(fs', id) {
      assert NameAfter(fs, fs'.disk, renamed, PendingName(id));
      assert Known(fs, PendingName(id));
    }
    assert NameAfter(fs, fs'.disk, renamed, HeadName);
    if HeadName in fs'.disk {
      HeadExtends(fs, fs', fs'.disk[HeadName]);
    }
    forall n | n in fs'.disk ensures fs'.disk[n] in fs'.files {
      assert NameAfter(fs, fs'.disk, renamed, n);
    }
  }

  lemma CrashKeepsValid(fs: Fs, keep: seq<bool>, torn: map<Ino, Raw>)
    requires ValidFs(fs) && |keep| == |fs.ops|
    ensures ValidFs(AfterCrash(fs, keep, torn)) && Extends(fs, AfterCrash(fs, keep, torn))
  {
    var fs' := AfterCrash(fs, keep, torn);
    var renamed := PendingRename(fs) && keep[0];
    forall n ensures NameAfter(fs, fs'.disk, renamed, n) {
      CrashedName(fs, keep, n);
    }
    SettledKeepsValid(fs, fs', renamed);
  }

  lemma SyncKeepsValid(fs: Fs)
    requires ValidFs(fs)
    ensures var fs' := fs.(disk := View(fs), ops := []);
            ValidFs(fs') && Extends(fs, fs') && View(fs') == View(fs)
  {
    var fs' := fs.(disk := View(fs), ops := []);
    forall n ensures NameAfter(fs, fs'.disk, PendingRename(fs), n) {
      ViewName(fs, n);
    }
    SettledKeepsValid(fs, fs', PendingRename(fs));
  }

  // ---------- every event keeps the invariant ----------

  lemma LinkKeepsFs(fs: Fs, name: Name, ino: Ino)
    requires ValidFs(fs) && ino !in fs.files && name !in View(fs) && !name.HeadName?
    requires name.PendingName? ==> fs.ops == []
    requires name.CertificateName? ==> IntentFor(fs, name.id)
    requires name.PendingName? ==> CertificateFor(fs, name.id)
    ensures var fs' := fs.(ops := fs.ops + [Link(name, ino)], files := fs.files[ino := File(OtherBytes(0), false)]);
            ValidFs(fs') && Extends(fs, fs')
    ensures name !in fs.disk
  {
    var fs' := fs.(ops := fs.ops + [Link(name, ino)], files := fs.files[ino := File(OtherBytes(0), false)]);
    ViewName(fs, name);
    assert name !in fs.disk && !Linked(fs, name);
    var last := |fs.ops|;
    forall n | Linked(fs', n) ensures n == name || Linked(fs, n) {
      var k :| 0 <= k < |fs'.ops| && fs'.ops[k].Link? && fs'.ops[k].name == n;
      if k < last {
        assert fs.ops[k] == fs'.ops[k];
      }
    }
    forall j, k | 0 <= j < k < |fs'.ops| && fs'.ops[j].Link? && fs'.ops[k].Link?
      ensures fs'.ops[j].name != fs'.ops[k].name
    {
      if k == last {
        assert Linked(fs, fs.ops[j].name);
      }
    }
    SameDiskKeepsValid(fs, fs');
  }

  lemma LinkKeepsHead(fs: Fs, name: Name, ino: Ino)
    requires ValidFs(fs) && ino !in fs.files && name !in View(fs) && !name.HeadName?
    ensures ReadHead(fs.(ops := fs.ops + [Link(name, ino)], files := fs.files[ino := File(OtherBytes(0), false)]))
            == ReadHead(fs)
  {
    ApplyAllAppend(fs.disk, fs.ops, Link(name, ino));
    ViewName(fs, HeadName);
  }

  lemma CreateKeepsValid(s: State, ino: Ino)
    requires Valid(s) && s.job.Some? && Advance(s.fs, s.job.value, CreateFile(ino)).Some?
    ensures var s' := Advance(s.fs, s.job.value, CreateFile(ino)).value;
            Valid(s') && Extends(s.fs, s'.fs)
  {
    var job := s.job.value;
    var fs' := Advance(s.fs, job, CreateFile(ino)).value.fs;
    LinkKeepsFs(s.fs, JobName(job, job.stage.doc), ino);
    LinkKeepsHead(s.fs, JobName(job, job.stage.doc), ino);
    JobDurableExtends(s.fs, fs', job, job.stage.doc);
  }

  lemma RewriteKeepsFs(fs: Fs, ino: Ino, file: File)
    requires ValidFs(fs) && ino in fs.files && !fs.files[ino].synced
    ensures var fs' := fs.(files := fs.files[ino := file]);
            ValidFs(fs') && Extends(fs, fs') && ReadHead(fs') == ReadHead(fs)
  {
    var fs' := fs.(files := fs.files[ino := file]);
    assert forall n :: Linked(fs', n) ==> Linked(fs, n) by {
      assert fs'.ops == fs.ops;
    }
    SameDiskKeepsValid(fs, fs');
    ViewName(fs, HeadName);
    assert View(fs') == View(fs);
    if HeadName in View(fs) {
      assert fs.files[View(fs)[HeadName]].synced;
    }
  }

  lemma JobDurableExtends(fs: Fs, fs': Fs, job: Job, doc: Document)
    requires Extends(fs, fs') && JobDurable(fs, job, doc)
    ensures JobDurable(fs', job, doc)
  {
  }

  lemma WriteKeepsValid(s: State, e: Event)
    requires Valid(s) && s.job.Some? && (e.WritePart? || e.FsyncFile?) && Advance(s.fs, s.job.value, e).Some?
    ensures var s' := Advance(s.fs, s.job.value, e).value;
            Valid(s') && Extends(s.fs, s'.fs)
  {
    var fs, job := s.fs, s.job.value;
    var doc, ino := job.stage.doc, job.stage.ino;
    var file := if e.WritePart? then File(e.part, false) else fs.files[ino].(synced := true);
    RewriteKeepsFs(fs, ino, file);
    JobDurableExtends(fs, fs.(files := fs.files[ino := file]), job, doc);
  }

  /** The certificate being installed continues the head that its install read. */
  lemma JobFollows(fs: Fs, job: Job)
    requires ValidFs(fs) && fs.ops == [] && ReadHead(fs) == job.expected
    requires ValidateTransition(CertificateBytes(job.certificate), job.expected).Ok?
    requires Durable(fs, CertificateName(job.certificate.id), CertificateBytes(job.certificate))
    requires IntentFor(fs, job.certificate.id)
    ensures Follows(fs, job.certificate) && Lineage(fs, job.certificate)
  {
    ViewName(fs, HeadName);
    if job.expected.Some? {
      var parent := HeadCertificate(fs, fs.disk[HeadName]);
      assert job.expected.value.head == MakeHead(parent);
      assert HasParent(job.certificate) && Parent(job.certificate) == parent;
    }
  }

  /** After the directory fsync the document just written is durable under its name. */
  lemma SyncPublishes(fs: Fs, job: Job)
    requires ValidFs(fs) && job.stage.Flushed? && ValidStage(fs, job)
    ensures Durable(fs.(disk := View(fs), ops := []), JobName(job, job.stage.doc), JobBytes(job, job.stage.doc))
  {
    var name := JobName(job, job.stage.doc);
    var front := fs.ops[..|fs.ops| - 1];
    assert fs.ops == front + [Link(name, job.stage.ino)];
    ApplyAllAppend(fs.disk, front, Link(name, job.stage.ino));
  }

  lemma SyncDocumentStage(fs: Fs, job: Job)
    requires job.stage.Flushed? && JobDurable(fs, job, job.stage.doc) && fs.ops == []
    requires Durable(fs, JobName(job, job.stage.doc), JobBytes(job, job.stage.doc))
    ensures ValidStage(fs, job.(stage := AfterDocument(job.stage.doc)))
  {
  }

  lemma SyncDocumentKeepsValid(s: State)
    requires Valid(s) && s.job.Some? && s.job.value.stage.Flushed?
    ensures var s' := Advance(s.fs, s.job.value, SyncDirectory).value;
            Valid(s') && Extends(s.fs, s'.fs)
  {
    var fs, job := s.fs, s.job.value;
    var fs' := fs.(disk := View(fs), ops := []);
    SyncKeepsValid(fs);
    SyncPublishes(fs, job);
    JobDurableExtends(fs, fs', job, job.stage.doc);
    SyncDocumentStage(fs', job);
  }

  lemma SyncRenameKeepsValid(s: State)
    requires Valid(s) && s.job.Some? && s.job.value.stage.Renamed?
    ensures var s' := Advance(s.fs, s.job.value, SyncDirectory).value;
            Valid(s') && Extends(s.fs, s'.fs)
  {
    var fs, job := s.fs, s.job.value;
    var fs' := fs.(disk := View(fs), ops := []);
    SyncKeepsValid(fs);
    assert ReadHead(fs') == ReadHead(fs);
    ViewName(fs, HeadName);
    assert PendingRename(fs);
    JobDurableExtends(fs, fs', job, ThePending);
  }

  lemma SyncJobKeepsValid(s: State)
    requires Valid(s) && s.job.Some? && Advance(s.fs, s.job.value, SyncDirectory).Some?
    ensures var s' := Advance(s.fs, s.job.value, SyncDirectory).value;
            Valid(s') && Extends(s.fs, s'.fs)
  {
    if s.job.value.stage.Flushed? {
      SyncDocumentKeepsValid(s);
    } else {
      SyncRenameKeepsValid(s);
    }
  }

  lemma RenameKeepsValid(s: State)
    requires Valid(s) && s.job.Some? && Advance(s.fs, s.job.value, RenameHead).Some?
    ensures var s' := Advance(s.fs, s.job.value, RenameHead).value;
            Valid(s') && Extends(s.fs, s'.fs)
  {
    var fs, job := s.fs, s.job.value;
    var fs' := Advance(fs, job, RenameHead).value.fs;
    JobFollows(fs, job);
    assert Extends(fs, fs');
    LineageExtends(fs, fs', job.certificate);
    assert fs'.ops == [Rename(PendingName(job.certificate.id), HeadName)];
    assert forall n :: !Linked(fs', n);
    if HeadName in fs.disk {
      HeadExtends(fs, fs', fs.disk[HeadName]);
    }
  }

  lemma StepKeepsValid(s: State, e: Event)
    requires Valid(s) && Next(s, e).Some?
    ensures Valid(Next(s, e).value) && Extends(s.fs, Next(s, e).value.fs)
  {
    match e
    case Crash(keep, torn) => CrashKeepsValid(s.fs, keep, torn);
    case CreateFile(ino) => CreateKeepsValid(s, ino);
    case WritePart(_) => WriteKeepsValid(s, e);
    case FsyncFile => WriteKeepsValid(s, e);
    case SyncDirectory => SyncJobKeepsValid(s);
    case RenameHead => RenameKeepsValid(s);
    case _ =>
  }
}
