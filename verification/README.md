# Storage-stability operators: a model and its proofs

This project models the hard logic of the storage-stability operators and of a few validators, and proves what
they keep over whole runs.  `dafny verify dfyconfig.toml` checks all of it.

## What is modelled

- **Epoch certificates** (`EpochInstall`, `EpochInvariant`, `EpochHistory`, `EpochInstaller`).  A root directory has
  a durable part, directory operations that no fsync covered yet, and files whose bytes are durable only after an
  fsync.  Each system call of `install_one`, each failure and each crash is one event; a crash drops any subset of
  the uncovered operations and may leave anything in an unsynced file.  Installers take turns under the lock.
- **Provider hold** (`CheckpointHold`).  One receipt is checked against its predecessors; the theorems are about
  every accepted list of receipts.
- **Runtime stop** (`RuntimeStop`).  Controller, daemon worker and runtime worker interleave freely, and any of them
  may die or fail at any point; the permission pipe is read in arbitrary chunks.
- **Process ownership** (`ProcessOwnership`).  A process table with forks, session escapes, exits, adoption by the
  subreaper and pid reuse; it may move before each look of the operator.  The operator is a class with the fields
  of the original, and keeps a record of every wait and signal.
- **Trees that change while they are read** (`FileTrees`, `TreeScan`, `DirectoryScan`, `CopyFrame`, `CopyTree`,
  `CopyReadback`, `CopyInterference`, `BlobInventory`).  The outside may rewrite, create or remove any inodes before
  every system call; every change gives an inode a change time never used before.  That is the only assumption.
- **Four-root blob seed** (`BlobUnion`, `BlobCopy`, `BlobSeed`).  The union of the manifests, bounded batches, and a
  disk on which the bytes of a file, its name, its shard and its root become durable separately.
- **Canary watch** (`CanaryTimeline`) and **primary fence** (`PrimaryFence`).  Clock readings are real numbers and
  arguments; every sample, command and failure is an argument too.
- **Parsers and algorithms** (`Digits`, `Ustar`, `Quantity`, `RenderOwnership`, `SeedReferences`, `Utf8`, `CitationId`).

Code that changes state is a class or a method with the loops of the original, proved against functions and
predicates on values, and the theorems about whole runs are lemmas about those.

## What the code does not promise

Each of these is a theorem, with the exact condition or with a run that shows it.

- *Old head or new head.*  `install_one` compares the head that running processes see.  If an earlier install failed
  between its rename and the directory fsync, that head is not durable yet, and a crash during the next install can
  show the one before it.  `EpochHistory.HeadIsOldOrNewIffSettled` says exactly when,
  `EpochHistory.CrashMayShowNeitherHead` is such a history.
- *Nothing charged after the deadline.*  The watch forbids a charge only when the previous sample was dated at or
  past the deadline (`CanaryTimeline.ChargeTakenExactlyBefore`).  A database clock that steps back by seconds, which
  the sample rules allow, lets a charge through: `CanaryTimeline.ChargeAfterStepBack` is a completed watch with one.
  From twelve seconds past the deadline on there is none (`CanaryTimeline.NothingChargedTwelveSecondsLater`).
- *Sixty seconds of grace.*  The schedule is only sure to leave five samples for it (`CanaryTimeline.ObserveWindow`),
  and the cap of 400 samples may stop the watch with 55 seconds left: `CanaryTimeline.CapCutsGrace` is such a watch.
- *The finishing time of a fence window* is read after the last check of the deadline, so it may lie past the deadline
  (`PrimaryFence.FinishMayPassTheDeadline`).  Readers of historical windows demand that it does not, and accept an
  archived window if and only if it does not (`PrimaryFence.ArchivedWindowReadsBack`).
- *Archive members.*  The bound admits 4096 members, not one fewer (`Ustar.PrintedIsAccepted`).
- *Metadata of copied directories and links.*  The readback compares names, file bytes, file metadata and link targets
  with the rows, but a directory or link only with the signature recorded after its metadata was applied.  So it has
  the metadata of its row if and only if that signature has it and the attributes were the row's at that moment
  (`CopyReadback.RowCopiedIff`).  If nothing else changes the destination the whole copy has all metadata of the
  source (`CopyReadback.Copy`); one foreign change at the right moment is never noticed
  (`CopyInterference.TouchedDirectory`).

## Conventions

- `need(...)` that fails is a refusal: `None`, `Refused` or `false`, with the state that the code leaves.
- Documents in canonical JSON are values, a digest is an injective constructor, and a process is its pid and start
  ticks.  Numbers are unbounded where the original has Python integers.
- A deadline is the end of the script, budget or schedule of outside answers; loops that the original ends by a
  deadline end there.

## Model

| member | source | states |
|---|---|---|
| EpochInvariant.CrashedName | scripts/storage-stability/epoch_certificate.py:256-257 | What any name shows after a crash that drops any subset of the directory operations no fsync covered: its durable entry, or one of the uncovered ones |
| EpochInvariant.StepKeepsValid | scripts/storage-stability/epoch_certificate.py:284-323 | Every system call, failure and crash of an install keeps the root ordered: a pending or installed head has its durable certificate lineage, a certificate its durable intent, and durable bytes never change |
| EpochHistory.CrashKeepsDocumentsOrdered | scripts/storage-stability/epoch_certificate.py:284-304 | After a crash at any step of any history, with any uncovered operation lost and any unsynced file torn, a head implies its full certificate and intent, a pending head its certificate, a certificate its intent |
| EpochHistory.HeadIsOldOrNewIffSettled | scripts/storage-stability/epoch_certificate.py:305-307 | During one install every crash shows exactly the old or the new head if and only if the starting head was already covered by a directory fsync |
| EpochHistory.CrashMayShowNeitherHead | scripts/storage-stability/epoch_certificate.py:305-307 | A concrete history in which it is not: an install fails right after its rename, the next one begins over the head everyone sees, and a crash then shows no head at all |
| EpochHistory.UnsettledMeansUncoveredRename | scripts/storage-stability/epoch_certificate.py:305-307 | The starting head is unsettled only after a rename with no directory fsync and no crash since |
| EpochHistory.DurableHeadsFormOneChain | scripts/storage-stability/epoch_certificate.py:158-171 | Over any history of installs, failures and crashes the durable heads are generations 1, 2, 3, ..., each predecessor hash naming the certificate before, all still present, one more at a time |
| EpochHistory.ReturnedInstallIsPermanent | scripts/storage-stability/epoch_certificate.py:305-317 | Once an install has returned, no later crash shows a chain without its certificate |
| EpochHistory.IntentPassedOnce | scripts/storage-stability/epoch_certificate.py:237-239 | Exclusive creation of the intent: a certificate id gets past its durable intent at most once in any history |
| EpochHistory.CurrentIsReadable | scripts/storage-stability/epoch_current.py:130-141 | After any history of installs, failures and crashes the reader accepts a root exactly when a head is set: a head is never without the certificate it names |
| EpochHistory.AcceptedPairAgrees | scripts/storage-stability/epoch_current.py:144-168 | Two roots accepted together, each after any history of its own, hold the same head bytes and the same bytes for every certificate back to generation 1 |
| EpochInstaller.Root.WriteNew | scripts/storage-stability/epoch_certificate.py:237-257 | One document: exclusive creation, writes however short until it is whole, file fsync with readback, directory fsync; otherwise the install ends |
| EpochInstaller.Root.InstallOne | scripts/storage-stability/epoch_certificate.py:260-323 | A refusal before the intent changes nothing; a success leaves head, certificate and intent durable at the end of an unbroken chain; any other failure leaves the visible head old or new |
| EpochInstaller.HeadAfterFailure | scripts/storage-stability/epoch_certificate.py:305-313 | However an install ends without a crash, the visible head is the expected one or the installed one |
| CheckpointHold.HoldTrajectory | scripts/storage-stability/checkpoint.py:150-195 | Over every accepted list of receipts the hold is constant, or constant, installed once, constant, or then also released once and constant, with original, installed and released generations pairwise distinct |
| CheckpointHold.ForeignHoldUntouched | scripts/storage-stability/checkpoint.py:158-176 | Cleanness never changes, and a hold that is foreign, unclean or a recovery hold when first seen is never altered |
| CheckpointHold.InstallFreezesProvider | scripts/storage-stability/checkpoint.py:162-179 | From just after the install through the release nothing of the provider moves, admissions and ownership included |
| CheckpointHold.AccountingOnlyAdvances | scripts/storage-stability/checkpoint.py:117-148 | Policy and day stay, no counter or canary charge ever falls, a charge that moves is at most 100, and the time of the last canary observation never goes back and stays within the deadline, between any two observations of a run |
| RuntimeStop.PermittedIffStreamIsToken | scripts/storage-stability/command_process.py:463-480 | However the reads cut the byte stream, permission holds exactly when the whole stream up to its end is the token |
| RuntimeStop.RuntimeOutlivesDaemon | scripts/storage-stability/diagnostic_daemon.py:1180-1250 | In every interleaving of controller, daemon and runtime worker, with any of them dying or failing anywhere, the runtime is signalled or permitted only after the daemon exited and its worker recorded closed descendants, or when there never was one |
| RuntimeStop.TokenWrittenAtMostOnce | scripts/storage-stability/diagnostic_daemon.py:1180-1200 | The token is written at most once in any history; without a write nothing is permitted and nothing signalled |
| RuntimeStop.Actors.PermitRuntimeStop | scripts/storage-stability/diagnostic_daemon.py:1180-1200 | It sends exactly when the checks hold, no intent existed, the intent is saved and the whole token is written; what is sent proves the daemon closed |
| ProcessTable.EnvAllKeeps | scripts/storage-stability/command_process.py:118-191 | Whatever owned processes do (fork, leave sessions, exit, be adopted, reap, reuse pids), lives are not resumed, and children of the operator stay its children until it reaps them |
| ProcessTable.ChildlessMeansAlone | scripts/storage-stability/command_process.py:176-181 | A subreaper without direct children has no descendants at all, alive or unreaped |
| ProcessTable.AloneStaysAlone | scripts/storage-stability/command_process.py:264-275 | Once alone, always alone: nothing is left that could fork |
| ProcessTable.SameTicksTwiceIsSameLife | scripts/storage-stability/command_process.py:155-160 | A pid that shows the same start ticks before and after a pidfd is opened gave a pidfd of that very life |
| ProcessOwnership.Operator.OpenSince | scripts/storage-stability/command_process.py:155-160 | A pidfd is kept only for the identity that was read, whatever happened in between |
| ProcessOwnership.Operator.Wait | scripts/storage-stability/command_process.py:165-174 | A wait by the operator reaps only its own zombie children, never the leader before its Popen has the status |
| ProcessOwnership.Operator.Capture | scripts/storage-stability/command_process.py:142-160 | Discovery files every pidfd under the identity read before it was opened and signals nothing; once the owned processes do nothing more, success means that every one of them is filed |
| ProcessOwnership.Operator.Reap | scripts/storage-stability/command_process.py:162-174 | Popen observes its leader first; adopted children are reaped one by one, and once the owned processes do nothing more no tracked child is left a zombie |
| ProcessOwnership.Operator.Drain | scripts/storage-stability/command_process.py:217-286 | It reports success only with every descendant gone and the leader status known; every signal goes through a pidfd of the very life whose pid and ticks were read before the pidfd was opened |
| ProcessOwnership.Operator.Execute | scripts/storage-stability/command_process.py:306-409 | A result is returned only when no descendant is alive or unreaped, on every path |
| ProcessOwnership.Operator.PhysicallyClosed | scripts/storage-stability/command_process.py:481-491 | It reports closure only when nothing is left, and sends no signal |
| ProcessOwnership.Operator.ExecuteRetained | scripts/storage-stability/command_process.py:411-555 | A result is returned only when nothing is left; every signal comes after a permission was seen, and none is sent while permission was never seen |
| FileTrees.UntouchedBetween | scripts/storage-stability/copy_tree.py:16-17 | An inode with the same change time at two instants was the same inode at every instant between |
| TreeScan.StillThere | scripts/storage-stability/copy_tree.py:140-148 | A node whose recorded signature is seen again later was, at the end of the pass, what the pass read of it, and so was everything below |
| TreeScan.TreeGivesManifest | scripts/storage-stability/copy_tree.py:88-130 | The rows of a tree that is there at an instant list every path of it exactly once, with what it holds |
| TreeScan.EverySignatureIsThere | scripts/storage-stability/copy_tree.py:140-148 | At that instant every recorded path leads to the inode with exactly the recorded signature |
| TreeScan.RecheckAll | scripts/storage-stability/copy_tree.py:141-148 | Every recorded signature has been seen again at or after the start of the recheck |
| TreeScan.RecheckScan | scripts/storage-stability/bootstrap_backend.py:681-712 | A finished scan whose recheck succeeds is the manifest of the instant at which the scan ended |
| DirectoryScan.DirectoryRead | scripts/storage-stability/copy_tree.py:76-133 | A directory that is the same at the end: its names are the listed ones, and each led to the node that was read |
| DirectoryScan.ReadAll | scripts/storage-stability/copy_tree.py:99-107 | What the read loop returns is the content of the recorded inode if that is still the same afterwards |
| CopyTree.ReadFile | scripts/storage-stability/copy_tree.py:94-107 | An accepted file row is bytes and metadata of the inode whose signature was recorded |
| CopyTree.ReadLinkEntry | scripts/storage-stability/copy_tree.py:122-130 | A link read by name is the recorded one if its directory did not change; only reviewed targets without attributes pass |
| CopyTree.Copier.Visit | scripts/storage-stability/copy_tree.py:74-136 | One directory: rows and signatures are exactly those of the nodes read, tracked to their recorded inodes, and the planned destination names are theirs, to any depth up to 64; every recorded destination signature was seen there; and if nothing outside changed the destination, the directory holds copies of just those nodes and its own source metadata, and nothing else changed |
| CopyReadback.CopySource | scripts/storage-stability/copy_tree.py:137-148 | Pass and recheck succeed only if there is one instant at which the whole source tree equals the returned manifest |
| CopyReadback.Readback.VerifyDirectory | scripts/storage-stability/copy_tree.py:150-174 | The readback finds the planned names, agreeing rows and witnessed signatures in every directory of the copy |
| CopyReadback.TwinsAreACopy | scripts/storage-stability/copy_tree.py:149-175 | A tree whose nodes agree name by name with the manifest is a copy of it: the same paths and no others |
| CopyReadback.VerifyCopy | scripts/storage-stability/copy_tree.py:149-185 | At the instant the readback ended the whole copy has the manifest paths, file bytes and metadata and link targets, and every inode, the root too, has the signature recorded when it was copied |
| CopyReadback.Copy | scripts/storage-stability/copy_tree.py:51-190 | Success means one instant for the whole source tree and one for the whole copy as it was recorded, whatever else changed either tree meanwhile; if nothing else changed the destination, both trees have one manifest with all metadata, the roots too, when the call returns; the reported count is the number of rows |
| CopyFrame.CopyIsExact | scripts/storage-stability/copy_tree.py:132-133 | A copy written while nothing else changed the destination is exact, metadata and all, once the source is known to have stayed as it was recorded |
| CopyFrame.ExactGivesManifest | scripts/storage-stability/copy_tree.py:88-130 | An exact copy has the same manifest as the source |
| CopyFrame.OneManifestOneTree | scripts/storage-stability/copy_tree.py:88-130 | Two trees with one manifest have the same paths with the same contents and metadata |
| CopyReadback.RowCopiedIff | scripts/storage-stability/copy_tree.py:132-136 | In a verified copy a path shows its whole row exactly when the recorded signature has the owner, mode and time of the row and the inode had its attributes when recorded; a file always does |
| CopyInterference.TouchedDirectory | scripts/storage-stability/copy_tree.py:134-136 | One outside change between the check of the metadata and the recording of the signature: every later comparison passes and the directory keeps the foreign metadata, whatever was wanted |
| BlobInventory.ManifestGivesInventory | scripts/storage-stability/bootstrap_backend.py:575-669 | The files of a manifest of marker, guards, shards and probes are the inventory of that instant |
| BlobInventory.ScanFile | scripts/storage-stability/bootstrap_backend.py:625-661 | A file is accepted only with the metadata and content its path demands; what is found is the recorded inode |
| BlobInventory.ScanRoot | scripts/storage-stability/bootstrap_backend.py:567-671 | The pass over the root: everything found is tracked to its recorded inode and every directory was the same at its end |
| BlobInventory.Inventory | scripts/storage-stability/bootstrap_backend.py:560-712 | Offline, the result is the exact inventory of the root at one instant: every file once, of its class, hashing to its name, nothing else but directories |
| BlobUnion.Collect | scripts/storage-stability/initial_blob_seed.py:421-429 | The dictionaries hold exactly what the sources hold, per family; refused exactly on a malformed row or a key with two meanings |
| BlobUnion.Sorted | scripts/storage-stability/initial_blob_seed.py:430-431 | One family: a list strictly sorted by key with exactly its values |
| BlobUnion.SameSortedList | scripts/storage-stability/initial_blob_seed.py:430-431 | There is only one such list |
| BlobUnion.Unite | scripts/storage-stability/initial_blob_seed.py:421-435 | Each family gets exactly the union of its sources, each row from a source that holds it; success exactly when consistent and within bounds |
| BlobCopy.DurableExactly | scripts/storage-stability/initial_blob_seed.py:522-535 | A file survives every crash with its bytes exactly when its bytes, its name, its shard name and the root name are all durable |
| BlobCopy.Target.CopyInto | scripts/storage-stability/initial_blob_seed.py:476-513 | However short the writes are, the new file holds exactly the bytes of its row and they are on the medium; no other file changes |
| BlobCopy.Target.CopyFile | scripts/storage-stability/initial_blob_seed.py:447-519 | The dirty-shard refusal needs 64 dirty shards; otherwise the file is copied and its shard is dirty |
| BlobCopy.Target.Barrier | scripts/storage-stability/initial_blob_seed.py:522-535 | Afterwards every synced file of a dirty shard is durable by all its names, and no content changed |
| BlobCopy.CopyRows | scripts/storage-stability/initial_blob_seed.py:538-548 | Consecutive rows, at most 64 and 4 MiB or one row alone, never none; the dirty-shard refusal cannot happen |
| BlobCopy.CopyBatch | scripts/storage-stability/initial_blob_seed.py:538-552 | After a batch everything copied in it or before survives any crash |
| BlobCopy.CopyTarget | scripts/storage-stability/initial_blob_seed.py:657-687 | The batches partition the list, the loop ends, the target holds exactly the list with bytes that a source holds for that row, and a receipt exists only when every generation is durable |
| BlobCopy.ReceiptOutlivesCrashes | scripts/storage-stability/initial_blob_seed.py:684-687 | After the receipt, a crash at any later moment leaves each generation with exactly its bytes |
| BlobSeed.CopiedIsSeeded | scripts/storage-stability/initial_blob_seed.py:636-687 | A target that holds exactly the rows of one family of the union holds exactly the union of its sources, each row with bytes from a source that has that very row |
| BlobSeed.SeedFamily | scripts/storage-stability/initial_blob_seed.py:421-435 | The union and then the batches, end to end: on success the target holds exactly the union of its family, each row from a source that holds it |
| Ustar.OctalExact | scripts/storage-stability/diagnostic_daemon.py:640-645 | The octal reader accepts exactly the fields of padding, one to eleven digits and a terminator whose value is in range |
| Ustar.HeaderExact | scripts/storage-stability/diagnostic_daemon.py:662-692 | A header is accepted exactly when its fields say so: type, magic, zero fields, checksum of its own bytes, name and size |
| Ustar.AcceptedExactlyWhenTiled | scripts/storage-stability/diagnostic_daemon.py:648-696 | A stream is accepted exactly when it is tiled by good headers, payloads in range, zero padding and a zero trailer with distinct names, and the result is those names |
| Ustar.PrintedHeaderIsRead | scripts/storage-stability/diagnostic_daemon.py:670-691 | A printed header is read back as the header it was printed from |
| Ustar.PrintedIsAccepted | scripts/storage-stability/diagnostic_daemon.py:674-696 | Every list of at most 4096 distinct admissible members prints to an accepted stream with just those names |
| Ustar.PhysicalMembers | scripts/storage-stability/diagnostic_daemon.py:648-696 | The loop over a stream computes exactly that, and the remaining bytes fall at each turn |
| CanaryTimeline.NextTimerIsNext | scripts/storage-stability/canary_watch.py:119-124 | The next boundary is the first 19:00 UTC strictly after the stamp |
| CanaryTimeline.Timeline.Accept | scripts/storage-stability/canary_watch.py:201-247 | A sample is taken exactly when every demand is met, the state moves by that sample, and completion is reported exactly when the window is over on both clocks |
| CanaryTimeline.RunShape | scripts/storage-stability/canary_watch.py:227-246 | An accepted run is one sample before, one after activation, then observations, at most 400 |
| CanaryTimeline.EveryStepHolds | scripts/storage-stability/canary_watch.py:205-244 | Every sample keeps gap, drift, timer, pod, policy, window and consumption rules against its neighbours |
| CanaryTimeline.CompleteRun | scripts/storage-stability/canary_watch.py:201-247 | A completed run covers 21600 seconds after activation with gaps of at most a minute and has 362 to 400 samples |
| CanaryTimeline.OneWindow | scripts/storage-stability/canary_watch.py:176-192 | One window from activation on, consumption never falling and at most 100 |
| CanaryTimeline.NoTimerCrossed | scripts/storage-stability/canary_watch.py:213-213 | No 19:00 UTC lies between the first sample and any other |
| CanaryTimeline.ChargesNeedTheWindow | scripts/storage-stability/canary_watch.py:243-244 | Anything charged between two samples was charged at some step between them, from a sample the database dated before the deadline to the next |
| CanaryTimeline.ChargeTakenExactlyBefore | scripts/storage-stability/canary_watch.py:243-244 | A sample that meets every other demand and charges is accepted exactly when the sample before it was dated before the deadline |
| CanaryTimeline.NothingChargedTwelveSecondsLater | scripts/storage-stability/canary_watch.py:205-244 | Nothing is charged after any sample dated twelve seconds or more past the deadline, whatever the clocks did within the rules |
| CanaryTimeline.ChargeAfterStepBack | scripts/storage-stability/canary_watch.py:243-244 | A concrete run that the timeline reports complete and that charges after a sample dated past the deadline, because the database clock stepped back |
| CanaryTimeline.ObserveWindow | scripts/storage-stability/canary_watch.py:433-448 | Completion only for a complete watch; the sleep schedule uses at most 395 samples before the six hours are over |
| CanaryTimeline.CapCutsGrace | scripts/storage-stability/canary_watch.py:433-448 | A concrete run on the sleep schedule that reaches 400 samples five seconds after the six hours, not complete: every further sample is refused with 55 seconds of grace left |
| PrimaryFence.LsnOrder | scripts/storage-stability/initial_pg_pair.py:104-106 | Parsed positions are ordered by their halves |
| PrimaryFence.TakeProof | scripts/storage-stability/epoch_primary_fence.py:385-401 | The polling loop computes the proof of the capture and the number of commands it ran |
| PrimaryFence.CaptureBounds | scripts/storage-stability/epoch_primary_fence.py:391-402 | A successful capture is durable, of at most 33 commands, every one started and checked under the one clock |
| PrimaryFence.Fences.PrepareFence | scripts/storage-stability/epoch_primary_fence.py:230-297 | A context is added exactly when nothing is held unknown, all earlier ones are archived and the original deadline is the same; later failure leaves it unknown |
| PrimaryFence.Fences.CaptureFence | scripts/storage-stability/epoch_primary_fence.py:385-406 | A prepared context is captured once; without a proof it is unknown and so is the backend |
| PrimaryFence.Fences.ArchiveFence | scripts/storage-stability/epoch_primary_fence.py:409-435 | A window is archived once; only one with a proof becomes archived |
| PrimaryFence.EveryHistoryKeepsInv | scripts/storage-stability/epoch_primary_fence.py:250-297 | Over every sequence of calls at most the last context is not archived, and the backend is held exactly when that one is unknown |
| PrimaryFence.HistoryIsLater | scripts/storage-stability/epoch_primary_fence.py:158-159 | Over any later history deadlines stay, windows and records stay, unknown stays and blocks new contexts |
| PrimaryFence.ArchivedHasItsProof | scripts/storage-stability/epoch_primary_fence.py:431-433 | An archived context has a proof whose flush is at least its prefix, from at most 33 commands under one clock of two seconds |
| PrimaryFence.ArchivedOnce | scripts/storage-stability/epoch_primary_fence.py:411-413 | A second archive of the same window is refused, whatever happened between |
| PrimaryFence.FinishMayPassTheDeadline | scripts/storage-stability/epoch_primary_fence.py:401-403 | A captured window may record a finishing time past its own deadline, since that clock reading comes after the last check |
| PrimaryFence.ArchivedWindowReadsBack | scripts/storage-stability/epoch_completion.py:325-328 | After any history on a monotonic clock the commands of an archived context lie in order within its two seconds and the deadline of the operation, and a reader of historical windows accepts its clock readings exactly when the recorded finish is before the recorded deadline |
| RenderOwnership.RankedHasNoCycle | scripts/deployment_sources.py:351-357 | Finished paths ranked above their targets rule out every cycle below them and contain all that is reachable |
| RenderOwnership.Ownership.Visit | scripts/deployment_sources.py:351-357 | One visit on a finite edge map ends; a refusal means a reachable cycle, success leaves every visited path finished |
| RenderOwnership.Ownership.VisitRoot | scripts/deployment_sources.py:359-362 | A root is refused exactly when it reaches a cycle, and otherwise owns exactly what it reaches |
| RenderOwnership.ValidateOwners | scripts/deployment_sources.py:349-367 | Accepted exactly when every root is a kustomization that reaches no cycle and every source declares its actual owners, of which it has one |
| Quantity.ParseExact | scripts/deployment_validation.py:95-99 | Text is read as number and suffix in exactly the one way it can be written |
| Quantity.NormalizeExact | scripts/deployment_validation.py:91-117 | A text of at most 128 characters is normalised to exactly the ceiling of 1000 times its value, and rejected exactly when malformed, not positive, out of range or with an exponent outside 32 bits |
| Quantity.TinyRoundsToOne | scripts/deployment_validation.py:107-109 | Below 10 to the -200 the ceiling is one, because so short a number cannot make up for it |
| Quantity.HugeIsOutOfRange | scripts/deployment_validation.py:110-110 | Above 10 to the 200 nothing so short and positive can be in range |
| Quantity.BothAgree | deploy/document-sandbox/acceptance.py:37-63 | The acceptance script computes the same answer for every text |
| Quantity.DocumentSettings | scripts/deployment_validation.py:120-135 | Settings are accepted exactly with known fields, a positive pool, and quantities in range for one worker and for the pool |
| Quantity.AcceptanceSettings | deploy/document-sandbox/acceptance.py:66-88 | The acceptance script accepts the same, over its own defaults |
| Quantity.QuotaHoldsThePool | scripts/deployment_validation.py:240-266 | A checked quota admits exactly the configured number of workers, and its bounds are representable |
| SeedReferences.Consume | scripts/storage-stability/epoch_completion.py:648-696 | Accepted exactly when the pages read one after the other are good and the last is short; the result is their concatenation |
| SeedReferences.ReadIsSorted | scripts/storage-stability/epoch_completion.py:651-694 | What is accepted is strictly sorted by role and key, without duplicates, cut every 128 rows with only the last page short |
| SeedReferences.SlicesGiveTheList | scripts/storage-stability/epoch_completion.py:650-695 | Pages that are slices of one list give that whole list |
| SeedReferences.Produce | scripts/storage-stability/initial_blob_seed.py:366-405 | On a list that stays the same the producer ends with all of it exactly when it is servable, in at most 1564 pages the consumer accepts |
| Utf8.DecodeOf | scripts/serving_smoke.py:297-300 | Strict decoding undoes encoding |
| Utf8.EncodeOf | scripts/serving_smoke.py:297-300 | Only encodings are decoded: no overlong form, no surrogate, nothing left over |
| CitationId.UnquoteOfEncoded | scripts/serving_smoke.py:298-301 | Unquoting an encoded section gives the section back |
| CitationId.SectionExact | scripts/serving_smoke.py:295-305 | A path part is accepted as a section exactly when it is the encoding of an admissible one |
| CitationId.SpanExact | scripts/serving_smoke.py:306-309 | Two parts are accepted as a span exactly when they are the canonical decimals of a legal one |
| CitationId.ParseExact | scripts/serving_smoke.py:277-311 | A text is accepted with these fields exactly when they are well-formed and the text is their path, of at most 2048 bytes |

## Left out

- CopyTree.Copier.Visit: the byte total of the result, the deadline inside write loops, and the separate row kind of a seed marker; a file is written after it was read whole, not chunk by chunk, which no statement depends on.
- CopyReadback.VerifyCopy: metadata of directories and links is that of the recorded signature, not of the row, because the code does not compare it with the row; when they are equal is `CopyReadback.RowCopiedIff`.
- BlobInventory.ScanFile: the fields of marker and guard documents, which only refuse more.
- BlobInventory.Inventory: online mode, which tolerates health-file churn; the fields of marker and guard documents and the count and byte bounds on generations, which only refuse more; the three result lists are one list with a class per path.
- FileTrees.UntouchedBetween: file systems whose change time can repeat after a change, because the code relies on it never doing so.
- ProcessOwnership.Operator.Capture: which processes a walk finds while they fork and exit around it; the code walks again on the next turn.
- ProcessOwnership.Operator.Reap: which children are left zombies while processes still exit during it.
- ProcessOwnership.Operator.Drain: when it ends; the code itself says that kernel work may outlive any deadline, so only what a result proves is stated. Output capture and exit codes are not modelled.
- ProcessOwnership.Operator.Execute: errors between dispatch and the first capture are covered by the drain alone; the time limits of TERM and KILL are arguments.
- CheckpointHold.HoldTrajectory: the phase loop of `execute`, journal and authority checks; receipts are given.
- EpochInstaller.Root.InstallOne: identity, mode and ownership checks of files and root, which only refuse more; Python's equality across JSON types.
- EpochHistory.CurrentIsReadable: the rechecks of a held head against a reader that runs beside an installer.
- EpochHistory.AcceptedPairAgrees: the same rechecks on both roots; each is read at one moment of its history.
- BlobCopy.CopyTarget: the inventory of the finished target and ownership and attribute checks of its directories, which only refuse more; no other process writes to the new target.
- BlobCopy.Target.CopyInto: identity, owner, mode, attribute and time checks of the source and target file, which only refuse more.
- CanaryTimeline.Timeline.Accept: text forms of time stamps and shapes of native evidence; rounding of floating-point clocks.
- PrimaryFence.Fences.PrepareFence: everything between registration and the prepared state is one outcome that succeeds or fails; the journal budget is part of it.
- RenderOwnership.ValidateOwners: reading and parsing of kustomizations; edges are given.
- SeedReferences.Consume: the command receipts behind each page; a page that cannot be read back is refused.
- Ustar.PhysicalMembers: the size of the stream is its length; extraction happens elsewhere.
- CitationId.ParseExact: strings with lone surrogates, which the original refuses when it encodes them.
- Docker, Kubernetes, ZFS, PostgreSQL, TLS and HTTP calls: only the values they return appear, as arguments.
- Large literal manifest comparisons, inventories and shape checks of single documents: single-branch facts.
- Supervisors, smoke clients, release scripts, Rust test support and widget files: plumbing around the parts above.
