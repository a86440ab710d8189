/** The install procedure itself, one system call after another. */
module EpochInstaller {
  import opened Prelude
  import opened EpochDocuments
  import opened EpochRoot
  import opened EpochInvariant
  import opened EpochHistory

  /** What the kernel, the deadline and the readbacks answer to one system call. */
  datatype Answer =
    | Fails
    | Creates(ino: Ino)
    | WritesPart(part: Raw)
    | Succeeds

  const DOCUMENTS := [TheIntent, TheCertificate, ThePending]

  /** An epoch root under its lock, with the history of everything that happened to it. */
  class Root {
    var state: State
    ghost var states: seq<State>
    ghost var events: seq<Event>

    ghost predicate Recorded()
      reads this
    {
      Run(states, events) && states[0] == Fresh && states[|states| - 1] == state
    }

    constructor ()
      ensures Recorded() && state == Fresh
    {
      state := Fresh;
      states, events := [Fresh], [];
    }

    /** One event that the program can perform now. */
    method Perform(e: Event)
      requires Recorded() && Next(state, e).Some?
      modifies this
      ensures Recorded() && Some(state) == old(Next(state, e))
      ensures states == old(states) + [state] && events == old(events) + [e]
    {
      state := Next(state, e).value;
      states, events := states + [state], events + [e];
    }

    /** The history went on from the given point without a crash and without another install. */
    ghost predicate Later(states0: seq<State>, events0: seq<Event>)
      reads this
    {
      && Recorded() && states0 <= states && events0 <= events
      && forall k :: |events0| <= k < |events| ==> !events[k].Begin? && !events[k].Crash?
    }

    /** Writes, however short, until the whole document is in the file; then the file fsync. */
    method WriteAll(doc: Document, ino: Ino, answers: seq<Answer>) returns (done: bool, rest: seq<Answer>)
      requires Recorded() && state.job.Some? && state.job.value.stage == Writing(doc, ino) && ino in state.fs.files
      modifies this
      ensures Later(old(states), old(events))
      ensures done ==> state.job == Some(old(state).job.value.(stage := Flushed(doc, ino)))
      ensures !done ==> state.job == old(state).job
    {
      rest := answers;
      while rest != [] && rest[0].WritesPart?
        invariant Later(old(states), old(events))
        invariant state.job == old(state).job && ino in state.fs.files
        decreases |rest|
      {
        Perform(WritePart(rest[0].part));
        rest := rest[1..];
      }
      if rest == [] || !rest[0].Succeeds? {
        return false, rest;
      }
      Perform(WritePart(JobBytes(state.job.value, doc)));
      Perform(FsyncFile);
      return true, rest[1..];
    }

    method Stop()
      requires Recorded() && state.job.Some?
      modifies this
      ensures Later(old(states), old(events)) && state.job.None?
    {
      Perform(Abort);
    }

    /** Exclusive create: refused when the kernel says so or the name is taken. */
    method Create(doc: Document, answers: seq<Answer>) returns (made: bool, ino: Ino)
      requires Recorded() && state.job.Some? && state.job.value.stage == Creating(doc)
      modifies this
      ensures Later(old(states), old(events))
      ensures made ==> state.job == Some(old(state).job.value.(stage := Writing(doc, ino))) && ino in state.fs.files
      ensures made ==> answers != []
      ensures !made ==> state == old(state)
    {
      if answers == [] || !answers[0].Creates? || Next(state, CreateFile(answers[0].ino)).None? {
        return false, 0;
      }
      Perform(CreateFile(answers[0].ino));
      return true, answers[0].ino;
    }

    method SyncDocument(doc: Document, ino: Ino)
      requires Recorded() && state.job.Some? && state.job.value.stage == Flushed(doc, ino)
      modifies this
      ensures Later(old(states), old(events))
      ensures state.job == Some(old(state).job.value.(stage := AfterDocument(doc)))
      ensures Durable(state.fs, JobName(old(state).job.value, doc), JobBytes(old(state).job.value, doc))
    {
      RunKeepsValid(states, events, 0, |states| - 1);
      SyncPublishes(state.fs, state.job.value);
      Perform(SyncDirectory);
    }

    /** The next document: exclusive create, whole content, file fsync with readback, directory fsync. */
    method WriteNew(doc: Document, answers: seq<Answer>) returns (done: bool, rest: seq<Answer>)
      requires Recorded() && state.job.Some? && state.job.value.stage == Creating(doc)
      modifies this
      ensures Later(old(states), old(events))
      ensures done ==> state.job == Some(old(state).job.value.(stage := AfterDocument(doc)))
      ensures !done ==> state.job.None?
      ensures done ==> Durable(state.fs, JobName(old(state).job.value, doc), JobBytes(old(state).job.value, doc))
    {
      var made, ino := Create(doc, answers);
      if !made {
        Stop();
        return false, answers;
      }
      done, rest := WriteAll(doc, ino, answers[1..]);
      if !done || rest == [] || !rest[0].Succeeds? {
        Stop();
        return false, rest;
      }
      SyncDocument(doc, ino);
      return true, rest[1..];
    }

    /** The old head and the pending file are read again before the rename. */
    method RenamePending()
      requires Recorded() && state.job.Some? && state.job.value.stage == CheckingHead
      modifies this
      ensures Later(old(states), old(events))
      ensures state.job == Some(old(state).job.value.(stage := Renamed))
    {
      RunKeepsValid(states, events, 0, |states| - 1);
      ViewName(state.fs, PendingName(state.job.value.certificate.id));
      Perform(RenameHead);
    }

    method SyncRename()
      requires Recorded() && state.job.Some? && state.job.value.stage == Renamed
      modifies this
      ensures Later(old(states), old(events))
      ensures state.job == Some(old(state).job.value.(stage := Installed))
      ensures Installs(state.fs, state.job.value.certificate, state.job.value.expected)
    {
      Perform(SyncDirectory);
      RunKeepsValid(states, events, 0, |states| - 1);
      InstalledJob(state.fs, state.job.value);
    }

    method Finish()
      requires Recorded() && state.job.Some? && state.job.value.stage == Installed
      requires Installs(state.fs, state.job.value.certificate, state.job.value.expected)
      modifies this
      ensures Later(old(states), old(events)) && state.job.None? && state.fs == old(state).fs
    {
      Perform(Return);
    }

    /** The rename, its directory fsync and the final readback. */
    method Publish(answers: seq<Answer>) returns (done: bool)
      requires Recorded() && state.job.Some? && state.job.value.stage == CheckingHead
      modifies this
      ensures Later(old(states), old(events)) && state.job.None?
      ensures done ==> Installs(state.fs, old(state).job.value.certificate, old(state).job.value.expected)
    {
      if |answers| < 1 || !answers[0].Succeeds? {
        Stop();
        return false;
      }
      RenamePending();
      if |answers| < 2 || !answers[1].Succeeds? {
        Stop();
        return false;
      }
      SyncRename();
      if |answers| < 3 || !answers[2].Succeeds? {
        Stop();
        return false;
      }
      Finish();
      return true;
    }

    /**
     One install.  The recorded history stays legal, so every theorem about histories covers every
     state this call goes through.  A refusal before the intent leaves the root untouched.
     */
    method InstallOne(raw: Raw, expected: Option<Raw>, answers: seq<Answer>) returns (r: Result<Head>)
      requires Recorded() && state.job.None?
      modifies this
      ensures Recorded() && state.job.None?
      ensures old(states) <= states && old(events) <= events
      ensures (ValidateTransition(raw, expected).Refused? || old(ReadHead(state.fs)) != expected) ==>
                r.Refused? && state == old(state)
      ensures r.Ok? ==>
                && ValidateTransition(raw, expected) == r && old(ReadHead(state.fs)) == expected
                && Installs(state.fs, raw.certificate, expected)
      ensures r.Refused? ==> ReadHead(state.fs) == old(ReadHead(state.fs))
                             || (ValidateTransition(raw, expected).Ok?
                                 && ReadHead(state.fs) == Some(HeadBytes(ValidateTransition(raw, expected).value)))
    {
      if ValidateTransition(raw, expected).Refused? || ReadHead(state.fs) != expected {
        return Refused;
      }
      var head := ValidateTransition(raw, expected).value;
      Perform(Begin(raw, expected));
      ghost var states1, events1 := states, events;
      var rest, n := answers, 0;
      while n < 3
        invariant 0 <= n <= 3 && Later(states1, events1)
        invariant state.job == Some(Job(raw.certificate, expected, if n < 3 then Creating(DOCUMENTS[n]) else CheckingHead))
      {
        var done;
        done, rest := WriteNew(DOCUMENTS[n], rest);
        if !done {
          HeadAfterFailure(states, events, |events1| - 1);
          return Refused;
        }
        n := n + 1;
      }
      var done := Publish(rest);
      if !done {
        HeadAfterFailure(states, events, |events1| - 1);
        return Refused;
      }
      return Ok(head);
    }
  }

  /** Head, certificate and intent are durable with this install's bytes, and end an unbroken chain. */
  ghost predicate Installs(fs: Fs, c: Certificate, expected: Option<Raw>) {
    && ReadHead(fs) == Some(HeadBytes(MakeHead(c)))
    && Durable(fs, HeadName, HeadBytes(MakeHead(c)))
    && Durable(fs, CertificateName(c.id), CertificateBytes(c))
    && Durable(fs, IntentName(c.id), IntentBytes(MakeIntent(c, expected)))
    && ValidFs(fs) && DiskChain(fs) == Ancestry(c)
  }

  lemma InstalledJob(fs: Fs, job: Job)
    requires ValidFs(fs) && job.stage.Installed? && ValidStage(fs, job)
    ensures Installs(fs, job.certificate, job.expected)
  {
    ViewName(fs, HeadName);
    assert JobName(job, TheCertificate) in fs.disk;
  }

  /** However an install ends without a crash, the running view shows the old head or the new one. */
  lemma HeadAfterFailure(states: seq<State>, events: seq<Event>, start: nat)
    requires Run(states, events) && states[0] == Fresh && start < |events| && events[start].Begin?
    requires forall k :: start < k < |events| ==> !events[k].Begin? && !events[k].Crash?
    ensures ReadHead(states[|states| - 1].fs) in {events[start].expected, NewHead(events[start])}
  {
    ViewHeadDuring(states, events, start, |states| - 1);
  }

  lemma {:induction false} ViewHeadDuring(states: seq<State>, events: seq<Event>, start: nat, i: nat)
    requires Run(states, events) && states[0] == Fresh && start < |events| && events[start].Begin?
    requires start < i < |states|
    requires forall k :: start < k < |events| ==> !events[k].Begin? && !events[k].Crash?
    ensures var s, b := states[i], NewHead(events[start]);
            && Valid(s) && ReadHead(s.fs) in {events[start].expected, b}
            && (s.job.Some? ==> b == Some(HeadBytes(MakeHead(s.job.value.certificate))))
  {
    var k := i - 1;
    RunKeepsValid(states, events, 0, k);
    assert Next(states[k], events[k]) == Some(states[k + 1]);
    if k > start {
      ViewHeadDuring(states, events, start, k);
    }
    StepMovesHeads(states[k], events[k]);
    ReadHeadIs(states[k].fs);
    ReadHeadIs(states[i].fs);
  }
}
