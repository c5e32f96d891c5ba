# Verified model of the monitor agent's storage, delivery and deployment cores

This project models the parts of the monitor agent whose correctness depends on what happens between two
system calls, between two processes, or at a fault in the middle of a transaction. Every statement holds for
all inputs, all runs or all interleavings; nothing is bounded.

`dafny verify dfyconfig.toml` checks the whole project.

## What is modelled

**The crash-consistent spool** (`src/monitor_agent/spool.py`). `SpoolProtocol` is the directory as a state
machine: inodes with bytes, the names of the root and of the dead-letter directory, and the persisted operation
markers. One label is one system call: `link` and `unlink` are two steps, and so are the look at the link count
and the unlink by which `ack` and the retention pass remove a record. A crash ends the calls of one process, so a
statement about every run is a statement about every crash point and every interleaving of any number of
instances. `SpoolRuns` holds what runs keep, `SpoolRecovery` what `_prepare` makes of a crashed directory and why
`enqueue` is atomic, `SpoolRaces` where the protocol falls short. `Spool` has the public operations as methods on
a shared directory (`SharedDirectory`), which they may touch only through enabled labels while other instances act
in between, inside recovery too. For a directory on which nobody else acts (`quiet`), with guards and locks held
elsewhere at will, contracts give the exact new directory, and if moreover no call fails (`reliable`, together
`Steady`), the exact answer: recovery succeeds, `enqueue` and `reject` take the lowest free name, a retried
rejection resumes where the crashed one stopped. `Guards` is the re-entrant guard
dictionary of one instance; `Interleaving` the multi-process protocol of guards, per-file locks and stale-file
cleanup. `Retention` and `PendingQueue` are the retention pass.

**The delivery runtime** (`src/monitor_agent/runtime.py`, `src/monitor_agent/transport.py`). `Runtime` is the
replay and delivery cycle over arbitrary transport outcomes, clock readings, files that become unreadable at any
time, and process deaths: in the replay loop, in a retention pass, inside an enqueue, and before and after every
send (a process in which nothing dies is `deathless`). `Heartbeat` is the scheduler over the reals, `Transport` the retry loop.

**The transactional installers**. `WindowsInstall` (on the file trees of `FileTrees`) is the journal, its
resolution and the rollback of `deploy/windows/install.ps1`, with faults before or after every effect and partial
removals. `MacInstall` is the flag-driven transaction of `deploy/macos/install.sh`. Both say what a committed
installation leaves and that one without faults commits (`faultless`).

**The smaller cores**. `Identity` (format in `UuidText`) interleaves the processes that create the identity file.
`Printf`, `LogMarkers` and `LogFilter` are the log template rewriting, `Occurrences` and `LogSecrecy` what it
hides. `Redaction` is command-line redaction.
`PythonText` holds the character scanning they share, `Wrappers` the option type.

## Where the code does less than it promises

Each of these has its exact condition, proved for all runs or all inputs, and a concrete input or run.

* `reject` after the record has gone. `_existing_rejection` looks at one marker and not at whether it was
  committed (spool.py:531-542). After any run its answer names the record if and only if a `reject` moved the
  record and nobody rewrote the marker afterwards; in every other case it names an absent or another file, or
  fails exactly if a file of other contents is there (`Spool.RejectionNamesTheRecord`). Runs that end in the wrong
  answer: `load` quarantined the record without a suffix (`SpoolRaces.QuarantineIsNotFound`), and a foreign file
  of the same bytes at the destination of a marker that was never committed (`SpoolRaces.ForeignFileIsTaken`).
* Moves whose marker is rewritten. `_move_to_dead_letter` opens the source, waits for its lock, and compares name
  and descriptor only after it has persisted a marker. If the lock holder died between `link` and its commit, the
  waiter rewrites the uncommitted marker of a record that already has a dead-letter name. A marker tells the
  record's dead-letter name if and only if its operation moved the record and nobody rewrote it since
  (`SpoolRuns.MarkerTellsExactly`), and a record left with two names is stranded if and only if its marker was
  rewritten (`SpoolRaces.OverwritingStrands`). No reader and no recovery lists it again
  (`SpoolRaces.StrandedForEver`, `SpoolRaces.StrandedIsReachable`). The bytes are never lost
  (`SpoolRuns.RecordNeverLost`).
* Acknowledging and evicting. `ack` and the retention pass look at the link count and then unlink, without a lock.
  A record is both acknowledged or evicted and a dead letter if and only if a move came in between
  (`SpoolRuns.RetiredDeadLetter`, `SpoolRaces.EvictedDeadLetter`). A moved record that nobody had looked at is
  never acknowledged or evicted (`SpoolRuns.MovedIsNeverRetired`).
* Windows rollback. The script counts a queued task as active when it saves the state, and asks at the end whether
  the task runs. When no rollback operation fails, the system is as it was, and the script nevertheless reports
  that recovery is required if and only if the prior task was queued and neither its stop nor a registration had
  been attempted (`WindowsInstall.WindowsInstaller.Rollback`, `WindowsInstall.UntouchedTaskLooksRestored`,
  `WindowsInstall.QueuedTaskIsReported`).
* macOS rollback. When no rollback command fails, the components are as they were, and rollback reports success if
  and only if a daemon that was running has a prior property list that starts it at load
  (`MacInstall.MacInstaller.Rollback`, `MacInstall.StoppedDaemonIsReported`).
* Log redaction of secrets that the redaction text holds. A configured secret without brackets is gone from every
  filtered text if and only if it is no part of `[REDACTED]` (`LogSecrecy.SecretIsGoneExactly`).
* Log templates with `%*%`. A literal percent sign that takes its width from an argument is counted as consuming
  none, so the filter drops an argument. A record that formats still does after the filter, with the same
  conversions and as many arguments, if and only if its template has no such percent sign
  (`LogFilter.FilterKeepsFormatting`, `LogFilter.PercentThatTakesAnArgument`).
* Log templates with NUL characters. The filter finds in its marked template the markers it put there if and only
  if no NUL of the template is followed by digits and then by a NUL or a conversion (`LogFilter.MarkersReadBack`).
  Otherwise it may raise (`LogFilter.MisreadMarker`, `LogFilter.MisreadExample`).
* The identity file. A creator that dies after creating the file leaves one that no process ever accepts or
  replaces if and only if its text is incomplete (`Identity.DeadCreatorAbandons`, `Identity.AbandonedForGood`).

## Model

| member | source | states |
|---|---|---|
| SpoolProtocol.PendingIsPublished | src/monitor_agent/spool.py:72-110 | a visible record name belongs to a published record and holds its full serialized bytes |
| SpoolProtocol.NamesAfter | src/monitor_agent/spool.py:1149-1180 | the exact set of names of every inode after each system call, including the two-name state between link and unlink |
| SpoolProtocol.CandidatesDiffer | src/monitor_agent/spool.py:518-529 | the numbered destinations of a quarantine and of a rejection never coincide |
| SpoolProtocol.PublishedAfter | src/monitor_agent/spool.py:370-515 | a published record stays under its root name, beside its staging name or one dead-letter name, or under one dead-letter name alone; one that was acknowledged or evicted has at most one dead-letter name |
| SpoolProtocol.UnpublishedAfter | src/monitor_agent/spool.py:252-280 | a staged file holds a prefix of its record and has at most its staging name; foreign files stay in the dead-letter directory |
| SpoolProtocol.MarkerAfter | src/monitor_agent/spool.py:490-502 | over every call a marker whose destination holds a record of its source has that record's digest |
| SpoolProtocol.StepKeepsInv | src/monitor_agent/spool.py:72-515 | every system call of every instance keeps the invariant |
| SpoolRuns.RunKeepsInv | src/monitor_agent/spool.py:72-515 | every run of any number of instances, with crashes anywhere, keeps the invariant |
| SpoolRuns.StepKeepsRecord | src/monitor_agent/spool.py:282-306 | no system call changes the bytes or the published name of a record |
| SpoolRuns.RecordNeverLost | src/monitor_agent/spool.py:370-515 | over every run the bytes of a record never change, and one that was not acknowledged or evicted has a name at which they are found: its own root name or one dead-letter name; one that was has at most a dead-letter name |
| SpoolRuns.StepKeepsDeadLetter | src/monitor_agent/spool.py:417-502 | a record keeps its one dead-letter name over any step |
| SpoolRuns.TellsBeforeMove | src/monitor_agent/spool.py:386-502 | before the move no marker tells a name of the record, and only its own move makes one do so |
| SpoolRuns.TellsAfterMove | src/monitor_agent/spool.py:419-453 | after the move a marker stops telling the name exactly if a process rewrites it |
| SpoolRuns.MarkerTellsExactly | src/monitor_agent/spool.py:386-502 | over any run, with any crashes, retries and quarantines, a marker tells the record's dead-letter name if and only if its operation moved the record and nobody rewrote it since |
| SpoolRuns.OneDeadLetterName | src/monitor_agent/spool.py:417-502 | over any run a record gains at most one dead-letter name and keeps it |
| SpoolRuns.RetiredDeadLetterStep | src/monitor_agent/spool.py:142-143 | which single call makes a record both retired and a dead letter |
| SpoolRuns.RetiredDeadLetter | src/monitor_agent/spool.py:135-182 | over any run a record is both acknowledged or evicted and a dead letter if and only if a move came between the look at its link count and the unlink |
| SpoolRuns.MovedIsNeverRetired | src/monitor_agent/spool.py:142-178 | a record that has a dead-letter name and was not looked at before is never acknowledged or evicted |
| SpoolRuns.RunSplits | src/monitor_agent/spool.py:204-208 | a run may be cut at any crash point and continued from the state reached there |
| SpoolRuns.ForeignFileKept | src/monitor_agent/spool.py:559-571 | a foreign file in the dead-letter directory keeps its name and bytes over every run in which nobody else removes it |
| SpoolRecovery.RecordRecovered | src/monitor_agent/spool.py:690-806 | which names recovery takes from a record, given the guards and locks held by others: the staging name, or the root name of a finishable move, and never the last one |
| SpoolRecovery.RecoveredKeepsInv | src/monitor_agent/spool.py:204-208 | recovery keeps the invariant |
| SpoolRecovery.RecoveryLeavesOneName | src/monitor_agent/spool.py:736-806 | after any run and the death of every process, recovery leaves a record that nobody moved its root name only, a moved one the marker's destination only, and one whose marker was rewritten the names it has; bytes are unchanged |
| SpoolRecovery.StillHalfMoved | src/monitor_agent/spool.py:776-800 | a move left half-finished by recovery was held by a live process |
| SpoolRecovery.RecoveryIsIdempotent | src/monitor_agent/spool.py:204-208 | a second recovery changes nothing |
| SpoolRecovery.ListedIsComplete | src/monitor_agent/spool.py:308-322 | a listed record holds all the bytes it was enqueued with; a file with two links is not listed |
| SpoolRecovery.AroundRun | src/monitor_agent/spool.py:252-306 | the calls of one enqueue change nothing but the bytes and the two names of its own file |
| SpoolRecovery.NamesAround | src/monitor_agent/spool.py:282-306 | every other file has the names it had; the new one has its staging name, its published name, both or none |
| SpoolRecovery.SameMoves | src/monitor_agent/spool.py:736-806 | recovery finishes the same dead-letter moves with and without the enqueue |
| SpoolRecovery.SameDropped | src/monitor_agent/spool.py:690-734 | recovery takes the same names from other files, and the staging name of the new one if it may |
| SpoolRecovery.VisibleAround | src/monitor_agent/spool.py:308-322 | what readers see after recovery is what they would have seen, or that and the new record |
| SpoolRecovery.EnqueueIsAtomic | src/monitor_agent/spool.py:72-110 | after any prefix of an enqueue's calls and a recovery beside any holders of guards and locks, the listing is the old one, or the old one plus the complete record under a name nobody used, exactly if it is published and its staging name is gone or free to go; dead letters are unchanged |
| SpoolRecovery.CrashedEnqueue | src/monitor_agent/spool.py:72-110 | the same for a crash after any number of calls of an enqueue that followed an arbitrary run |
| SpoolRaces.OverwritingStrands | src/monitor_agent/spool.py:419-453 | a run that leaves a record with its root name and a dead-letter name leaves it stranded if and only if it rewrote the marker of its move |
| SpoolRaces.StepKeepsStranded | src/monitor_agent/spool.py:776-794 | a step takes a stranded record out of that state if and only if it is the unlink of an ack or eviction that looked before the move |
| SpoolRaces.StrandedForEver | src/monitor_agent/spool.py:736-806 | a stranded record that nobody looked at before is, after every run and recovery, neither listed as pending nor counted as a dead letter |
| SpoolRaces.StrandedIsReachable | src/monitor_agent/spool.py:370-453 | a run of two instances, with the names the program chooses, that strands a record |
| SpoolRaces.QuarantineIsNotFound | src/monitor_agent/spool.py:127-132 | a run of one process without a crash: after a quarantine `reject` answers with a name at which there is nothing |
| SpoolRaces.ForeignFileIsTaken | src/monitor_agent/spool.py:531-542 | a run after which `reject` answers with a foreign file at the destination of an uncommitted marker |
| SpoolRaces.EvictedDeadLetter | src/monitor_agent/spool.py:174-178 | a run after which a record is evicted and a dead letter |
| Guards.FreedUndoesTaken | src/monitor_agent/spool.py:933-987 | releasing a guard undoes acquiring it, at any nesting depth and however guard files collide |
| Guards.ArtifactGuards.Acquire | src/monitor_agent/spool.py:933-977 | the guard's depth grows by one exactly on success; a guard already held is always granted, and if no call fails a free one is |
| Guards.ArtifactGuards.Release | src/monitor_agent/spool.py:979-987 | exactly one level is given back |
| Guards.ArtifactGuards.CleanupStale | src/monitor_agent/spool.py:822-865 | cleanup ends, normally or by exception, with the guards it started with; if no call fails it removes the file exactly when the guard can be taken |
| Guards.ArtifactGuards.AcquireReservation | src/monitor_agent/spool.py:867-898 | at most two attempts around one nested cleanup; one level more is held exactly on success, and if no call fails that is exactly when the guard can be taken |
| Guards.ArtifactGuards.ReleaseReservation | src/monitor_agent/spool.py:900-915 | the reservation's level is given back |
| Guards.ArtifactGuards.Create | src/monitor_agent/spool.py:874-882 | if no call fails, exclusive creation works, or finds a stale file the first time |
| SharedDirectory.SparedStep | src/monitor_agent/spool.py:374-385 | what a call of another instance leaves of a record whose source and operation are locked: its bytes, its names and its marker, but for the root name that an ack or eviction may take |
| SharedDirectory.UndisturbedStep | src/monitor_agent/spool.py:559-571 | without foreign creation, deletion or another record's arrival the dead-letter names stay |
| SharedDirectory.StageUntouched | src/monitor_agent/spool.py:690-734 | calls of others leave a locked staged file alone |
| SharedDirectory.PublishedUntouched | src/monitor_agent/spool.py:282-306 | calls of others leave the two names of a file between its link and the unlink of its staging name |
| SharedDirectory.RecordStays | src/monitor_agent/spool.py:372-376 | whatever others do, a published record keeps its bytes and its origin |
| SharedDirectory.Directory.Do | src/monitor_agent/spool.py:1149-1180 | one system call has its effect, extends the run and keeps the invariant |
| SharedDirectory.Directory.Others | src/monitor_agent/spool.py:386-502 | any number of calls of other instances between two own calls, within what the held locks allow; none if the directory is quiet |
| SharedDirectory.Directory.OthersFreely | src/monitor_agent/spool.py:204-208 | any number of any enabled calls of other instances, while nothing is held |
| SharedDirectory.Directory.OthersUnhindered | src/monitor_agent/spool.py:372-376 | the same while only a record is known: others may move it, commit its marker, acknowledge or evict it |
| SharedDirectory.Directory.OthersBesides | src/monitor_agent/spool.py:252-306 | the same beside a staged file in the making |
| SharedDirectory.Directory.OthersBesidePublished | src/monitor_agent/spool.py:1170-1177 | the same between the link and the unlink that publish a staged file |
| Spool.RejectionNamesTheRecord | src/monitor_agent/spool.py:531-542 | after any run a `reject` that finds the source gone answers with the record's name if and only if a `reject` moved it and nobody rewrote the marker since; otherwise it fails exactly if its marker's destination holds something else |
| Spool.RetryAfterTheMove | src/monitor_agent/spool.py:531-542 | a rejection that died once the record had its dead-letter name, at whatever call: after recovery the record has that name alone and a retry answers it |
| Spool.Spool.RetryBeforeTheMove | src/monitor_agent/spool.py:401-502 | a rejection that died after reserving a name and before the link: a retry moves the record to that name if it is still free |
| Spool.StageLinks | src/monitor_agent/spool.py:708-725 | a staging name is its file's only name, or one of exactly two, the other being the published one |
| Spool.OneMoreSource | src/monitor_agent/spool.py:736-800 | recovering one more marker removes exactly the root name of a finishable move |
| Spool.OneMoreStage | src/monitor_agent/spool.py:690-734 | visiting one more staging name removes it exactly if nobody holds it and its file has the looked-for link count |
| Spool.StagesRecovered | src/monitor_agent/spool.py:204-208 | the three passes of `_prepare`, in their order, add up to the specified recovery |
| Spool.Spool.PersistMarker | src/monitor_agent/spool.py:573-626 | the marker is replaced as a whole or not at all, under balanced guards; exactly when it is replaced, if no call fails |
| Spool.Spool.ReplaceMarker | src/monitor_agent/spool.py:599-619 | the rename that puts it in place, and when it counts as rewriting |
| Spool.Spool.ReserveDestination | src/monitor_agent/spool.py:559-571 | the reserved name was free while reserved and is one of the numbered names, the lowest free and unreserved one if nobody else acts and no call fails; on failure no guard is kept |
| Spool.Spool.LinkThenUnlink | src/monitor_agent/spool.py:1170-1177 | after success the record has only the destination name; after a failure in between it has both names, or the destination alone if an ack or eviction took the root name |
| Spool.Spool.UnlinkSource | src/monitor_agent/spool.py:1177 | the second call, after others have acted: the same two outcomes |
| Spool.Spool.MoveNoReplace | src/monitor_agent/spool.py:1149-1180 | publication never replaces a file: it succeeds, collides without effect, or fails with the record as it was, half-moved, or moved and retired |
| Spool.Spool.Redirect | src/monitor_agent/spool.py:424-453 | a new destination, the lowest free one if nobody else acts, is reserved and persisted before it is used |
| Spool.Spool.ReserveAgain | src/monitor_agent/spool.py:455-462 | the reservation of a destination the marker names is taken before use |
| Spool.Spool.Commit | src/monitor_agent/spool.py:490-502 | success means the record is at the destination alone and its marker is committed |
| Spool.Spool.PublishAndCommit | src/monitor_agent/spool.py:470-502 | from the comparison of source and open file to the committed marker, with the reservation given back on a collision |
| Spool.Spool.TryPublish | src/monitor_agent/spool.py:455-502 | a round that saw its destination free: reserve, compare, publish, commit; if nobody else acts it fails exactly when the destination is reserved elsewhere |
| Spool.Spool.Turn | src/monitor_agent/spool.py:417-502 | the round from the look at the destination on; if nobody else acts, exactly which of its four ends it takes and what it leaves |
| Spool.Spool.Round | src/monitor_agent/spool.py:417-502 | one round of the loop: it ends the move, or uses up interference, or turns to a fresh destination |
| Spool.Spool.PublishDeadLetter | src/monitor_agent/spool.py:417-502 | the loop ends under finitely many foreign creations and deletions; the record is settled and guards are balanced; if nobody else acts, the answer is the one the marker and the directory determine |
| Spool.Spool.TurnsToAnswer | src/monitor_agent/spool.py:417-502 | the rounds of the loop add up to that answer: one round, or one that turns to the lowest free name and one that publishes there |
| Spool.Spool.MoveAndRelease | src/monitor_agent/spool.py:417-509 | the same with the reservation given back |
| Spool.Spool.MoveLocked | src/monitor_agent/spool.py:386-509 | the move from reading the marker to the committed one, with the guards it started with; it is refused for a mismatch exactly if a marker holds another digest; if nobody else acts and no call fails: without a marker the lowest free name, with an uncommitted one its free destination, with a committed one that matches the destination and the source left alone, otherwise the lowest free name |
| Spool.Spool.MoveToDeadLetter | src/monitor_agent/spool.py:370-515 | from the moment the source lock is granted: success returns the record's only name with its bytes unchanged, every error leaves it findable; a foreign source is refused untouched; the exact answer as for MoveLocked, or refusal exactly while the operation is locked elsewhere |
| Spool.Spool.Reserve | src/monitor_agent/spool.py:867-898 | a reservation is taken exactly if its guard slot is free or held by this instance, if nobody else acts and no call fails |
| Spool.Spool.RecoverOne | src/monitor_agent/spool.py:764-800 | one marker's move is finished, and if nobody else acts, exactly if it is finishable |
| Spool.Spool.RecoverMarker | src/monitor_agent/spool.py:738-806 | the same under the operation's guard file, which is free exactly if no other process holds that slot |
| Spool.Spool.RecoverDeadLetterLinks | src/monitor_agent/spool.py:736-806 | the loop over markers, others acting in between; if nobody does, it finishes exactly the finishable moves |
| Spool.Spool.DropStagedNames | src/monitor_agent/spool.py:690-734 | the loop over staging names, others acting in between; if nobody does, it removes exactly the stale ones of the looked-for link count |
| Spool.Spool.DropIfStale | src/monitor_agent/spool.py:690-734 | one staging name under the one guard file that all of them share; it is kept while anybody holds that guard or the file's lock |
| Spool.Spool.Prepare | src/monitor_agent/spool.py:204-208 | if nobody else acts and no call fails, it succeeds and the directory becomes exactly the recovered one, given the guards and locks held elsewhere |
| Spool.Spool.FillStaged | src/monitor_agent/spool.py:264-267 | the staged file holds all bytes on success and a prefix otherwise; it succeeds if no call fails |
| Spool.Spool.WriteStaged | src/monitor_agent/spool.py:252-280 | success means a complete, unpublished staged file and one guard level; failure gives the level back |
| Spool.Spool.PublishNoReplace | src/monitor_agent/spool.py:1149-1180 | inside the root: published under the name, collided with the staged file intact, or failed with the file staged or published |
| Spool.Spool.LinkThenDrop | src/monitor_agent/spool.py:1170-1177 | its `link` and `unlink` fallback, others acting in between |
| Spool.Spool.PublishStaged | src/monitor_agent/spool.py:282-306 | the record gets one of its numbered names, the lowest free and unreserved one if nobody else acts and no call fails; guards are balanced on every way out |
| Spool.Spool.PublishAs | src/monitor_agent/spool.py:283-304 | one name: published exactly if it is free and unreserved, otherwise nothing is done |
| Spool.Spool.Enqueue | src/monitor_agent/spool.py:72-108 | after recovery, which is exact if nobody else acts, only calls of this enqueue were made; success publishes the complete bytes under a numbered name and ends with no guard held; if nobody else acts and no call fails, it succeeds with the lowest free name and leaves exactly the recovered directory and that record |
| Spool.Spool.AddRecord | src/monitor_agent/spool.py:83-108 | on the recovered directory: exactly one more complete record under the lowest free name, or no name at all |
| Spool.Spool.Ack | src/monitor_agent/spool.py:135-144 | recovers, then answers by what it found: the record of link count one loses its name, a missing one is no error, another file is refused and left alone; meanwhile the record may become a dead letter |
| Spool.Spool.Reject | src/monitor_agent/spool.py:146-153 | recovers, exactly if nobody else acts; then answers from the marker if the source is gone, refuses another file, or settles the record; a mismatch is reported exactly if a marker holds another digest; if nobody else acts and no call fails, the answer and the directory are exactly those of the move |
| Interleaving.UsedGuardIsHeld | src/monitor_agent/spool.py:933-977 | a process that owns or handles an artifact holds its guard |
| Interleaving.StaysCounted | src/monitor_agent/spool.py:933-987 | every call keeps guard depth equal to the number of artifacts and frames that use the guard |
| Interleaving.StaysUnharmed | src/monitor_agent/spool.py:822-898 | a process's own calls, nested cleanup included, never unlink what it still counts on |
| Interleaving.OthersKeep | src/monitor_agent/spool.py:690-734 | a call of one process harms no artifact of another |
| Interleaving.CallKeepsInv | src/monitor_agent/spool.py:822-987 | every call keeps the invariant that combines guard ownership with per-file locks |
| Interleaving.CrashKeepsInv | src/monitor_agent/spool.py:822-915 | a crash at any point keeps it |
| Interleaving.StepKeepsInv | src/monitor_agent/spool.py:822-987 | every step of the interleaved system keeps it |
| Interleaving.LiveArtifactsSurvive | src/monitor_agent/spool.py:690-915 | over every interleaving of any number of instances, with crashes anywhere, no staged file or reservation of a live owner is ever unlinked by recovery or cleanup |
| Interleaving.GuardsAreBalanced | src/monitor_agent/spool.py:933-987 | an instance between operations that owns nothing holds no guard |
| Interleaving.StaleArtifactsCanGo | src/monitor_agent/spool.py:822-865 | an idle instance that finds guard and lock free removes a stale artifact and nothing else |
| Interleaving.FreeNameCanBeTaken | src/monitor_agent/spool.py:867-898 | an idle instance that finds name and guard free can take it, and then owns a new file there, locked and guarded |
| Interleaving.TakenNameCanBeReleased | src/monitor_agent/spool.py:900-915 | giving it up leaves names, locks and instances as they were before |
| Retention.ListingIsUnique | src/monitor_agent/spool.py:308-314 | the order by time and name lists a set of records in one way only |
| Retention.DropExpiredIsExact | src/monitor_agent/spool.py:164-170 | the expired records are exactly a prefix of the listing |
| Retention.DropToFitIsExact | src/monitor_agent/spool.py:172-182 | the shortest prefix is dropped that makes the rest fit |
| Retention.RetentionIsExact | src/monitor_agent/spool.py:155-186 | the survivors are the longest suffix of the listing that holds no expired record and fits the size limit |
| Retention.RetentionIsIdempotent | src/monitor_agent/spool.py:155-186 | a second pass at the same time evicts nothing |
| Retention.SurvivesExactly | src/monitor_agent/spool.py:109-110 | a record survives if and only if it is not expired and it and all newer ones fit; so an enqueue evicts its own record exactly when that alone exceeds the limit |
| Retention.TotalOfSuffix | src/monitor_agent/spool.py:155-186 | evicted plus remaining bytes are the initial bytes |
| PendingQueue.Ordered | src/monitor_agent/spool.py:308-314 | every set of uniquely named records has its sorted listing |
| PendingQueue.PendingQueue.EvictExpired | src/monitor_agent/spool.py:164-170 | the first loop leaves exactly the unexpired records and counts records and bytes |
| PendingQueue.PendingQueue.EvictToFit | src/monitor_agent/spool.py:172-182 | the second loop leaves exactly the longest fitting suffix and counts records and bytes |
| PendingQueue.PendingQueue.EnforceRetention | src/monitor_agent/spool.py:155-186 | the pending set becomes the retained suffix; what left is evicted; the counts are those of the evicted prefix |
| PendingQueue.PendingQueue.Enqueue | src/monitor_agent/spool.py:72-110 | the new record joins and one retention pass follows, which may evict it |
| Runtime.RepeatsAreAdjacent | src/monitor_agent/runtime.py:63-86 | in every reachable log of deliveries the repeats of one event are adjacent |
| Runtime.OrderingOfDecayed | src/monitor_agent/spool.py:118-133 | pending files that become unreadable keep their place in the order and their events |
| Runtime.OrderingAfterSend | src/monitor_agent/runtime.py:67-78 | sending the oldest pending record keeps deliveries in creation order |
| Runtime.OrderingAfterEnqueue | src/monitor_agent/runtime.py:160-162 | the newest event's record goes to the end of the order |
| Runtime.LiveSuccess | src/monitor_agent/runtime.py:106-109 | a live delivery after an empty backlog keeps the order |
| Runtime.AgentRuntime.ReplayOne | src/monitor_agent/runtime.py:67-82 | exactly what one record's turn sends, acknowledges, rejects or keeps, with a death before or after the send |
| Runtime.AgentRuntime.Quarantine | src/monitor_agent/runtime.py:68-71 | an unreadable record goes to the dead letters without being sent |
| Runtime.AgentRuntime.SendPending | src/monitor_agent/runtime.py:73-82 | the oldest record is sent, and acknowledged, rejected or kept by the outcome |
| Runtime.AgentRuntime.ReplayNext | src/monitor_agent/runtime.py:67-82 | one round of the loop leaves exactly the rest of the listing pending |
| Runtime.AgentRuntime.ReplayBatch | src/monitor_agent/runtime.py:65-82 | a batch sends the readable ones among the oldest records in order, stops at the first retriable or authentication failure, and settles all before it |
| Runtime.AgentRuntime.Replay | src/monitor_agent/runtime.py:63-86 | the files may have decayed before; then the batch, retention on what is left, and whether the queue is empty |
| Runtime.AgentRuntime.Retain | src/monitor_agent/runtime.py:83-84 | a retention pass leaves the retained suffix; a death in it leaves a suffix and counts what left as evicted |
| Runtime.AgentRuntime.FinishReplay | src/monitor_agent/runtime.py:83-86 | the retained rest of the listing is what stays pending, and the answer tells whether that is nothing |
| Runtime.AgentRuntime.Store | src/monitor_agent/spool.py:72-110 | the event's record becomes pending or is evicted at once; a death in it leaves it published or not |
| Runtime.AgentRuntime.Enqueue | src/monitor_agent/runtime.py:160-162 | the event in hand ends up pending or evicted, as the newest record under two retention passes, in a readable file or not; order, and without a death conservation, are kept |
| Runtime.AgentRuntime.SendLive | src/monitor_agent/runtime.py:106-113 | the live send delivers, drops after a permanent failure, or leaves the event in hand; the process may die before or after it |
| Runtime.AgentRuntime.SendOrQueue | src/monitor_agent/runtime.py:106-113 | the result tells truly whether the event was delivered, spooled or dropped |
| Runtime.AgentRuntime.Deliver | src/monitor_agent/runtime.py:98-113 | the live event is sent exactly if the replay left nothing; otherwise it is queued as the newest record and two retention passes follow |
| Runtime.AgentRuntime.FinishCycle | src/monitor_agent/runtime.py:98-113 | the same on the rest that the replay left |
| Runtime.AgentRuntime.Build | src/monitor_agent/runtime.py:95-96 | a new event is newer than everything pending or sent |
| Runtime.AgentRuntime.RunCycle | src/monitor_agent/runtime.py:88-113 | every cycle, and every death anywhere in it, keeps delivery order; without deaths every event built is in exactly one of delivered, pending, dead-letter, evicted, dropped, and the result is true; the calls made are those of the replay and, exactly if retention leaves nothing of what the batch did not settle, the one for the live event; an empty queue means it is sent |
| Runtime.AgentRuntime.Live | src/monitor_agent/runtime.py:63-113 | the same over any number of cycles of any number of successive processes |
| Heartbeat.SlotBounds | src/monitor_agent/runtime.py:143-158 | the slot of a time is the grid interval that contains it |
| Heartbeat.CatchUp | src/monitor_agent/runtime.py:156-158 | the catch-up loop ends with the closed-form next deadline |
| Heartbeat.NextDeadlineIsPhaseLocked | src/monitor_agent/runtime.py:156-158 | the next deadline is on the grid of the first, is after now, and an overdue one moves to at most one interval after now |
| Heartbeat.NextSlot | src/monitor_agent/runtime.py:145-158 | after a punctual wait the next heartbeat falls into a later slot |
| Heartbeat.NoBursts | src/monitor_agent/runtime.py:143-158 | over every run all deadlines stay on the grid, and if waits never return early no slot sees two heartbeats |
| Heartbeat.EarlyWaitRepeatsASlot | src/monitor_agent/runtime.py:146-148 | a wait that returns early can put two heartbeats into one slot |
| Heartbeat.RunLoop | src/monitor_agent/runtime.py:143-158 | given when each wait ends and how long each cycle takes, the loop's beats start and end exactly then and follow that schedule |
| Transport.SafeRandom | src/monitor_agent/transport.py:148-155 | whatever the random source returns, the factor is the nearest number in [0, 1], and 0 if it is unusable |
| Transport.ClassificationIsExact | src/monitor_agent/transport.py:120-130 | which replies are transient, accepted, unauthorized, by transport exceptions and status numbers alone |
| Transport.CeilingDoubles | src/monitor_agent/transport.py:141-142 | the backoff bound starts at half a second and doubles up to thirty |
| Transport.DelayIsPause | src/monitor_agent/transport.py:141-146 | a pause is the random part of the bound, or what the server asked for if that is longer |
| Transport.DelayBounds | src/monitor_agent/transport.py:141-146 | a delay is in [0, 60], is at least what the server asked for, and without such a request at most the backoff ceiling |
| Transport.CapGrows | src/monitor_agent/transport.py:141-146 | one more ceiling keeps the total below both closed forms |
| Transport.PausedMore | src/monitor_agent/transport.py:141-146 | one more pause keeps every pause in bounds and, without Retry-After, the total below the closed form |
| Transport.SendPayload | src/monitor_agent/transport.py:57-90 | it goes past a reply exactly if the attempt limit allows and the reply is a transport exception, 408, 425, 429 or 5xx; SUCCESS exactly for a last status 2xx, AUTHENTICATION exactly for 401 and 403, RETRIABLE exactly if every allowed post was transient; each pause is exactly the backoff or the longer request; without Retry-After a total of at most the smaller closed form |
| FileTrees.CopyTreeItem | deploy/windows/install.ps1:356-377 | the recursive copy is the specified overlay, whatever the order of children |
| FileTrees.CopyRestores | deploy/windows/install.ps1:391-401 | copying a backup over remains gives back the tree if and only if the remains hold nothing foreign |
| FileTrees.CopyAfterRemoval | deploy/windows/install.ps1:349-354 | so it does after any partial removal |
| WindowsInstall.UntouchedTaskLooksRestored | deploy/windows/install.ps1:480-486 | the final check refuses a task that nobody touched if and only if it was queued |
| WindowsInstall.JournalIsExact | deploy/windows/install.ps1:415-445 | after the resolution a publication is Completed if and only if its move took effect, and a removal if and only if the prior tree is gone |
| WindowsInstall.RollbackRestores | deploy/windows/install.ps1:510-526 | from every consistent journal, resolution and rollback give a managed path its prior content or absence |
| WindowsInstall.UnresolvedPublicationStays | deploy/windows/install.ps1:430-436 | without the resolution an ambiguous publication survives unless it holds only names of the prior tree |
| WindowsInstall.OneNameChanged | deploy/windows/install.ps1:760-785 | an action on one managed name leaves state directories and unmanaged files alone |
| WindowsInstall.OneDirectoryChanged | deploy/windows/install.ps1:787-805 | a journaled creation of a state directory stays consistent with its journal |
| WindowsInstall.WindowsInstaller.StopPriorTask | deploy/windows/install.ps1:746-758 | success means the prior task is as it was but neither queued nor running |
| WindowsInstall.WindowsInstaller.BackUp | deploy/windows/install.ps1:764-768 | the backup is marked prepared only when it equals the live tree |
| WindowsInstall.WindowsInstaller.RemovePrior | deploy/windows/install.ps1:769-772 | a removal, complete or broken off anywhere, keeps the journal consistent |
| WindowsInstall.WindowsInstaller.Publish | deploy/windows/install.ps1:776-785 | a publication with a fault before or after its effect keeps the journal consistent; success puts exactly the staged tree live |
| WindowsInstall.WindowsInstaller.CreateStateDirectory | deploy/windows/install.ps1:787-805 | the same for state directories |
| WindowsInstall.WindowsInstaller.CheckLiveConfiguration | deploy/windows/install.ps1:807-810 | whatever the new agent writes into the files that are there, rollback can still undo it; nothing else changes |
| WindowsInstall.WindowsInstaller.PublishAll | deploy/windows/install.ps1:776-785 | success means every managed name is completed and holds its staged tree |
| WindowsInstall.WindowsInstaller.ReplaceFiles | deploy/windows/install.ps1:760-805 | without faults it succeeds; then every managed name holds its staged tree, the state directories are there, and nothing else has changed |
| WindowsInstall.WindowsInstaller.Deploy | deploy/windows/install.ps1:732-842 | without faults the forward sequence succeeds; its whole effect: staged trees live but for what the check wrote, state directories there, other names and the agent's data as they were, the new task running |
| WindowsInstall.WindowsInstaller.ResolveAmbiguousJournal | deploy/windows/install.ps1:415-445 | the loop resolves every managed name and marks a state directory Completed exactly if it is there |
| WindowsInstall.WindowsInstaller.TestRollbackState | deploy/windows/install.ps1:447-491 | the final check passes on every restored state whose task it takes for restored, and only if each managed name is present exactly when it was and the task runs exactly if it was active |
| WindowsInstall.WindowsInstaller.RestoreTree | deploy/windows/install.ps1:510-560 | success means that every name and the install root are as before; without a failing operation it succeeds |
| WindowsInstall.WindowsInstaller.Rollback | deploy/windows/install.ps1:493-611 | success is reported only if every name, the install root and the task are as before; when no rollback operation fails they are, and success is reported unless a queued task was left alone, and only then; the backups are kept otherwise |
| WindowsInstall.WindowsInstaller.Install | deploy/windows/install.ps1:732-877 | an installation without faults commits and cleans up; a committed one has the whole forward effect and is never rolled back; from a fault at any point a completed rollback is a true one; when no rollback operation fails everything is as before, and recovery is required if and only if a queued task was left alone; whatever happens, logs, spool and unmanaged files stay |
| WindowsInstall.QueuedTaskIsReported | deploy/windows/install.ps1:723-744 | a queued task and a fault at the install root: recovery is reported over an unchanged system |
| MacInstall.RestorationIsExact | deploy/macos/install.sh:227-258 | from every consistent combination of flags, restoring a component gives its prior content or absence |
| MacInstall.MacInstaller.StopPriorDaemon | deploy/macos/install.sh:358-362 | a loaded daemon is unloaded, or the failure is flagged |
| MacInstall.MacInstaller.BackUp | deploy/macos/install.sh:366-384 | flag and move stay consistent for each component |
| MacInstall.MacInstaller.Publish | deploy/macos/install.sh:385-392 | the staged component becomes live, or nothing changes |
| MacInstall.MacInstaller.StartDaemon | deploy/macos/install.sh:397-402 | success means loaded and running |
| MacInstall.MacInstaller.Deploy | deploy/macos/install.sh:358-403 | if no command fails, it succeeds exactly if the new property list starts the daemon; then the components are the staged ones but for what the check wrote |
| MacInstall.MacInstaller.RestoreComponent | deploy/macos/install.sh:227-258 | success means the prior content or absence; the prior component is never lost |
| MacInstall.MacInstaller.RestoreDaemon | deploy/macos/install.sh:194-212 | success means the prior loaded and running state; with working commands it succeeds if and only if the prior property list can restart a running daemon |
| MacInstall.MacInstaller.Rollback | deploy/macos/install.sh:260-299 | success means all four components and the daemon are as before; with working commands the components are, success is reported if and only if the prior property list can restart the daemon, and otherwise the daemon is left loaded and stopped |
| MacInstall.MacInstaller.Install | deploy/macos/install.sh:358-405 | it refuses exactly a loaded daemon without a property list; if no command fails it installs exactly if the new property list starts the daemon, and then the staged components are live; from a failed command at any point the verdict is true and no prior component is lost; with working rollback commands the components are restored |
| MacInstall.StoppedDaemonIsReported | deploy/macos/install.sh:194-212 | a running daemon whose property list does not start it: every command works, the daemon stays stopped, and rollback says so |
| UuidText.HexRoundTrip | src/monitor_agent/identity.py:81-86 | the digits written for a number read as that number |
| UuidText.CanonicalReadsBack | src/monitor_agent/identity.py:81-86 | the canonical text of a version 4 UUID is read as itself |
| UuidText.HexDigitAt | src/monitor_agent/identity.py:86 | which digit of a number stands where in its text |
| UuidText.TextShowsTheVersion | src/monitor_agent/identity.py:81-86 | the text of a number is accepted exactly if its third group begins with 4 and its fourth with 8, 9, a or b |
| UuidText.ProperPrefixIsRefused | src/monitor_agent/identity.py:81-86 | no proper prefix of the canonical text is accepted |
| UuidText.ReadIsCanonical | src/monitor_agent/identity.py:81-86 | a value read is text that reads as itself |
| Identity.UuidTextIsPrefixFree | src/monitor_agent/identity.py:81-98 | the concrete format meets what the protocol needs |
| Identity.WriteIsUnseen | src/monitor_agent/identity.py:126-129 | while text is being written no reader accepts it |
| Identity.IdentityIsFinal | src/monitor_agent/identity.py:101-131 | once the file reads as an identity, it reads as that one after every further step |
| Identity.StepKeepsInv | src/monitor_agent/identity.py:89-131 | a writer owns the file alone and every returned value is the file's |
| Identity.ReturnsAgree | src/monitor_agent/identity.py:89-131 | over every interleaving, from any initial file, processes that return agree whenever no proper prefix of a written identity is readable |
| Identity.AllReturnTheSame | src/monitor_agent/identity.py:81-131 | over every interleaving, from any initial file, all processes that return agree with each other and with the file |
| Identity.PersistedIdentityIsKept | src/monitor_agent/identity.py:106-114 | an identity found on disk is the one everybody returns |
| Identity.AbandonedForGood | src/monitor_agent/identity.py:89-98 | content that is no identity and has no writer stays for ever and nobody returns |
| Identity.DeadCreatorAbandons | src/monitor_agent/identity.py:126-131 | a dying creator leaves such content exactly if its text is incomplete |
| Identity.StateDirectory.ReadConcurrentWinner | src/monitor_agent/identity.py:89-98 | the polling loop returns the file's identity or fails after its attempts; an identity already there is returned |
| Identity.StateDirectory.LoadOrCreateFallback | src/monitor_agent/identity.py:101-131 | the value returned is the file's for good; an identity already there is returned; alone and with working writes it creates the file exactly if there is none and fails exactly if the file holds something else than an identity |
| Identity.StateDirectory.WriteCandidate | src/monitor_agent/identity.py:126-131 | success means the complete candidate is the file's content and identity; it succeeds if no write fails |
| PythonText.DecimalRoundTrip | src/monitor_agent/logging_setup.py:178 | a marker's number reads back |
| Printf.MatchIsLocal | src/monitor_agent/logging_setup.py:24-31 | a conversion is recognised by its own text, whatever follows |
| Printf.TextOfScan | src/monitor_agent/logging_setup.py:93 | scanning loses no text |
| Printf.ScanOfText | src/monitor_agent/logging_setup.py:24-31 | clear pieces are found again in their text |
| Printf.ScanIsClear | src/monitor_agent/logging_setup.py:24-31 | a template without stray percent signs consists of clear pieces |
| LogMarkers.TokensOfEncoded | src/monitor_agent/logging_setup.py:32 | markers are found where they were put and nowhere else, if and only if no NUL before them begins what looks like one |
| LogMarkers.HeaderIsExact | src/monitor_agent/logging_setup.py:20-23 | a bearer header is found exactly where its two words, its colon and its white space stand, and it ends before its credential |
| LogMarkers.HeaderHoldsNoMarker | src/monitor_agent/logging_setup.py:20-23 | the fixed part of a bearer header overlaps no marker |
| LogMarkers.CredentialKeepsMarks | src/monitor_agent/logging_setup.py:184-197 | replacing a credential keeps exactly its argument markers |
| LogMarkers.SubstitutionRefines | src/monitor_agent/logging_setup.py:199 | the bearer substitution on the marked string is the one on its tokens: no match cuts a marker |
| LogMarkers.SubstitutionKeepsMarks | src/monitor_agent/logging_setup.py:184-199 | it keeps the argument markers in order and makes nothing that looks like a marker or a conversion |
| LogMarkers.BearersAreArguments | src/monitor_agent/logging_setup.py:185-194 | only markers of arguments are reported as credentials |
| LogMarkers.ReplacedIsSafe | src/monitor_agent/logging_setup.py:153-167 | replacing a secret creates no marker and no percent sign |
| LogMarkers.RedactionKeepsMarks | src/monitor_agent/logging_setup.py:153-167 | redacting between the markers keeps every marker |
| Occurrences.OccursSomewhere | src/monitor_agent/logging_setup.py:79 | a text holds another exactly if it is found at some place |
| Occurrences.NothingAppears | src/monitor_agent/logging_setup.py:79 | replacing one text makes no other appear that the replacement has no part in |
| Occurrences.ReplacedIsGone | src/monitor_agent/logging_setup.py:79 | what was replaced is gone |
| LogSecrecy.BearerIsAnchored | src/monitor_agent/logging_setup.py:20-23 | a header holds no bracket, depends on its own text only, and no header begins inside it or inside the redaction text |
| LogSecrecy.SubstitutionCovers | src/monitor_agent/logging_setup.py:80 | after the substitution every header that can be found is followed by the redaction text, or by markers of arguments |
| LogSecrecy.SubstitutionAddsNothing | src/monitor_agent/logging_setup.py:80 | it makes no secret appear |
| LogSecrecy.RedactedSecretIsGone | src/monitor_agent/logging_setup.py:76-79 | every secret is gone after the redaction, whatever the others are and whatever their order |
| LogSecrecy.SecretIsGoneExactly | src/monitor_agent/logging_setup.py:76-79 | for a secret without brackets: gone from every text if and only if it is no part of the redaction text |
| LogSecrecy.RedactTokensIsEach | src/monitor_agent/logging_setup.py:153-167 | redacting the parts between the markers is replacing each secret in the whole |
| LogSecrecy.EachSecretIsGone | src/monitor_agent/logging_setup.py:153-167 | no secret is left among the characters of the template |
| LogSecrecy.EachCovers | src/monitor_agent/logging_setup.py:199-200 | redacting plain secrets afterwards uncovers no credential |
| LogSecrecy.RedactedIsFound | src/monitor_agent/logging_setup.py:153-206 | after the redaction exactly the same markers are found |
| LogFilter.ActiveConversions | src/monitor_agent/logging_setup.py:82-121 | the loop selects exactly the specified conversions and counts the arguments they take |
| LogFilter.SelectionIsComplete | src/monitor_agent/logging_setup.py:93-121 | in a template that formats, without starred percent signs, every conversion is active and its argument is the one formatting gives it |
| LogFilter.PercentStarsAreMissed | src/monitor_agent/logging_setup.py:94-102 | arguments taken by a percent sign are not counted |
| LogFilter.MarkTemplate | src/monitor_agent/logging_setup.py:174-181 | the loop builds the encoded marked template |
| LogFilter.MirrorIsSafe | src/monitor_agent/logging_setup.py:174-181 | tokens that mirror the pieces of a template hold no accidental marker if and only if the template is marker-free |
| LogFilter.MarkersReadBack | src/monitor_agent/logging_setup.py:174-206 | the filter finds exactly the markers it put into the template if and only if no NUL of the template is followed by digits and a NUL or a conversion |
| LogFilter.MarkedIsQuiet | src/monitor_agent/logging_setup.py:174-181 | the marked template of a marker-free template is free of accidental markers and restores to it |
| LogFilter.SpecsOfRestored | src/monitor_agent/logging_setup.py:202-206 | the argument conversions of a restored template are those of its argument markers |
| LogFilter.FilteredIsRestored | src/monitor_agent/logging_setup.py:169-206 | the string pipeline comes down to the token pipeline with all argument markers in order, and does not raise |
| LogFilter.TemplateKeepsConversions | src/monitor_agent/logging_setup.py:169-206 | the rewritten template has the same argument-consuming conversions in the same order and nothing stray |
| LogFilter.SentinelFormats | src/monitor_agent/logging_setup.py:208-218 | a sentinel formats under the conversion it was made for |
| LogFilter.ArgumentStaysCompatible | src/monitor_agent/logging_setup.py:240-246 | a redacted or replaced argument formats where the original did, widths and precisions included |
| LogFilter.ArgumentsStayCompatible | src/monitor_agent/logging_setup.py:264-273 | the tuple keeps its length and every value fits its conversion |
| LogFilter.FilterKeepsFormatting | src/monitor_agent/logging_setup.py:248-273 | for every record that formats and whose template is marker-free: the filter does not raise and keeps formatting, conversions and argument count, if and only if no percent sign takes an argument |
| LogFilter.ArgumentsAreHidden | src/monitor_agent/logging_setup.py:240-273 | no text argument shows a secret or a credential, an asterisk for a character aside |
| LogFilter.TemplateIsHidden | src/monitor_agent/logging_setup.py:169-206 | whenever the filter does not raise: no literals of the template spell a secret, its conversions are conversions it had, and for plain secrets only the redaction text or conversions of arguments follow a header |
| LogFilter.OnlySecretsChange | src/monitor_agent/logging_setup.py:240-246 | a text argument is unchanged if and only if it shows no secret and no credential |
| LogFilter.TemplateIsUnchanged | src/monitor_agent/logging_setup.py:169-206 | a template that formats, spells no secret and holds no header is unchanged |
| LogFilter.MisreadMarker | src/monitor_agent/logging_setup.py:184-206 | a template of NUL, a digit and a number conversion: the filter raises |
| LogFilter.MisreadExample | src/monitor_agent/logging_setup.py:24-32 | `\0` followed by `5%d` is such a template |
| LogFilter.PercentThatTakesAnArgument | src/monitor_agent/logging_setup.py:94-102 | a template of such a percent sign and a number formats before the filter and has an argument less after it |
| LogFilter.StarredPercentExample | src/monitor_agent/logging_setup.py:24-31 | `%*%%d` is such a template |
| LogFilter.SecretFilter.constructor | src/monitor_agent/logging_setup.py:72-74 | exactly the non-empty secrets are kept, and headers are the bearer headers |
| LogFilter.SecretFilter.RedactBetween | src/monitor_agent/logging_setup.py:153-167 | the loop over markers and parts redacts exactly the parts |
| LogFilter.SecretFilter.RedactTemplate | src/monitor_agent/logging_setup.py:169-206 | the steps compute the specified template and credential markers |
| LogFilter.SecretFilter.Filter | src/monitor_agent/logging_setup.py:248-273 | the record's template and arguments become the specified ones, and neither shows a configured secret or a credential; it raises exactly if a marker has a number that no active conversion has, and then leaves the record alone |
| Redaction.RedactedArguments | src/monitor_agent/collectors/processes.py:54-79 | the flag-driven loop is the flag-free specification: an argument is masked because of the one before it |
| Redaction.SecretsDoNotFlow | src/monitor_agent/collectors/processes.py:54-79 | command lines that differ only in masked values have equal output |
| Redaction.RedactionLeavesNothingToRedact | src/monitor_agent/collectors/processes.py:54-79 | in the output every announced value and every secret assignment is masked |
| Redaction.FlagHidesItsValue | src/monitor_agent/collectors/processes.py:16-26 | each of the seven flags, in any case, hides what follows it behind the sign or as the next argument |
| Redaction.WordHidesTheValue | src/monitor_agent/collectors/processes.py:27 | an assignment to a name that holds one of the five words, in any case, hides its value |
| Redaction.OnlyTheseAreSecret | src/monitor_agent/collectors/processes.py:16-27 | nothing else is hidden |
| Redaction.OnlySecretsChange | src/monitor_agent/collectors/processes.py:54-79 | a line is left unchanged if and only if it holds nothing to mask |
| Redaction.RedactionIsIdempotent | src/monitor_agent/collectors/processes.py:54-79 | redacting again changes nothing |
| Redaction.RedactedLength | src/monitor_agent/collectors/processes.py:60-64 | the output is longer by the number of secret flags that directly follow a bare secret flag |

## Left out

- Runtime.AgentRuntime.RunCycle: conservation is stated for runs without process death, because an event in hand dies with its process; order is stated for all runs.
- Runtime.AgentRuntime.Enqueue: event times are strictly increasing, as the file name order needs; clocks that step back are not modelled.
- PendingQueue.PendingQueue.EnforceRetention: the queue of the runtime is a set of records and is not derived from the directory's listing; one process at a time acts on it.
- Spool.RejectionNamesTheRecord: SHA-256 is taken as injective, also where a dead-letter name carries a part of it, for which the source name stands.
- Spool.Spool.MoveToDeadLetter: on Windows the source is not locked and its descriptor is closed before the rename; that path is not modelled.
- Spool.Spool.MoveToDeadLetter: that a redirect of an already moved record rewrites its marker is stated over runs (`SpoolRuns.MarkerTellsExactly`), not in the contract of the call.
- SpoolProtocol.StepKeepsInv: an unlink by name hits the record that was looked at; that the name was freed and taken by a new record between the look and the unlink is not modelled.
- SpoolRecovery.CrashedEnqueue: after the entry of the enqueue only its own calls are compared; calls of others next to it change the listing by themselves.
- WindowsInstall.WindowsInstaller.CheckLiveConfiguration: the check may rewrite files and trees, but neither adds nor removes a name of the install root.
- MacInstall.MacInstaller.Install: the removal of staged files and backups after the verdict is not modelled.
- Heartbeat.RunLoop: the startup cycle before the first deadline is not modelled.
- WindowsInstall.WindowsInstaller.Rollback: a scheduled task changes its state only by the calls of the script.
- WindowsInstall.WindowsInstaller.TestRollbackState: access control lists and the task's security descriptor are not compared.
- MacInstall.MacInstaller.Rollback: creation and removal of the three directories is not modelled, since the live check may write into them.
- FileTrees.CopyTreeItem: a file copied onto a directory of the same name counts as a failure; reparse points are not modelled.
- LogFilter.FilterKeepsFormatting: for templates that are not marker-free only the misreading itself is characterised; decimal digits of other scripts, which the patterns also take, are treated as letters.
- LogFilter.TemplateIsHidden: what stands behind a header of the template is not characterised when a configured secret holds white space or brackets or is a part of the redaction text.
- LogFilter.SecretFilter.Filter: log records whose arguments are a mapping, and messages that are not text, are not modelled.
- Transport.SendPayload: delays are real numbers, so float rounding and overflow are not modelled.
- `pending`, `stats`, `load` and its JSON checks: single reads after `_prepare`; a corrupt file enters the runtime model as an unreadable record.
- Real system calls, permissions, symbolic links, power loss and `fsync` durability, and hard links made by others: a completed call survives and a crash is process death.
- Releases of dead-letter reservations that fail themselves.
- Reservation and guard files are not in the directory of `SpoolProtocol`; `Guards` and `Interleaving` model them.
- JSON encoding, date parsing, HTTP, headers and payload validation.
- Further spellings that the integer conversion in a UUID accepts (signs, prefixes, underscores) are an arbitrary function of the text.
- Joining of redacted arguments into one line, and the other process fields.
- The Linux installer, the uninstallers, staging, preflight checks and security descriptors of the installers.
- Collectors, configuration, the command line, log handlers and formatters.
