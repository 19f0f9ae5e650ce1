# Verified model of the board and vault core

This project models the state machines of the repository that other parts rely on, and proves what they promise:

- the parallel-safety scheduler (`scripts/python/board_router.py`),
- the note index, incremental and rebuilt (`plugins/chrono-vault/index.py`),
- the note lifecycle with its supersession graph and its all-or-nothing file updates (`plugins/chrono-vault/lifecycle.py`),
- the delegation store, its ledger, lineages and lock (`scripts/python/coordination.py`, `scripts/python/delegation_lineage.py`),
- the incremental log scan of the dashboard (`bin/vs-board-dashboard.py`),
- process-tree teardown (`scripts/python/board_process_truth.py`),
- the dispatch-log rewrite and its append-versus-replace protocol (`scripts/python/dispatch_log.py`),
- full-text query quoting (`plugins/chrono-vault/query.py`, `plugins/chrono-vault/recall.py`),
- note frontmatter, written and read back (`plugins/chrono-vault/notes.py`, `plugins/chrono-vault/index.py`).

Code that updates state is modelled by classes and methods with loops (`LockTable`, `DependencyIndex`, `Schedule`, `Database`,
`Store`, `CoordinationStore`, `LogFile`, `Run`), each proved equal to a specification function or against a stated
postcondition. The theorems are lemmas about those functions; those of `SchedulerMeaning`, `NoteIndexFields`, `LifecycleRuns`,
`DelegationRecords`, `DispatchMeaning`, `FtsMeaning` and `LogScan.FoldMeaning` say what each operation does in the fields of its
input and output alone, without the helpers it is computed with. Runs with interleavings, crashes or faults are sequences of
steps; the rename lock and the append protocol are transition systems whose steps are single file-system operations.

Check it with `dafny verify dfyconfig.toml`.

## What is abstracted

- SHA-256 over canonical JSON is an injective constructor (`Digest`), so equal hashes mean equal contents.
- Canonical paths and file identities are a function fixed within a round, `resolve`; statements about two rounds take two
  such functions, since files change in between. The id that SQLite gives to a new row is
  any function that picks an unused one.
- Time, observations of processes, census results, signal results and injected faults are parameters: each lemma holds for
  all of them.
- JSON decoding, tokenising, case folding and the word class are parameters (`Library`, `Codec`), except for the JSON of note
  frontmatter, which is modelled character by character. What the log codec must satisfy (`DispatchLog.Faithful`) is met
  by a concrete one, `DispatchCodec.FaithfulCodecExists`.
- Dafny's characters are Unicode scalar values, so a text never holds a lone surrogate.

## Where the code and a promise part

Each item is an exact condition, if and only if, with a concrete input on the failing side; for the order of ready tasks the
condition is sufficient, again with a failing input.

- Tasks that declare a dependency on each other can run together: a second entry for an id, even one deferred as a
  duplicate, erases the edges of the first from the index. Given the tasks, the snapshot and the capacities, some choice of
  priorities, concurrency, settlements and gate runs such tasks if and only if tasks that may join the active set hide a
  declared path, which a caller can test on pairs of ready tasks with unrepeated ids:
  `SchedulerHidden.RunsApartIffNothingHidden`; a failing round: `SchedulerWitnesses.DependentTasksCanRun`.
  Where every declared edge is still reached in the index, as with distinct ids, the declared promise holds:
  `SchedulerDeclared.DeclaredSafety`. The index is the declared graph only when last entries cover earlier ones:
  `SchedulerOrder.IndexIsDeclaredGraphIff`, `SchedulerWitnesses.OfferedIsNotCovered`.
- A snapshot that a round returned can be refused by a later one: new ready tasks connect two inherited tasks (the index covers
  both), files of two of them have come to alias, or the capacities no longer carry them. These are exactly the cases:
  `SchedulerRounds.SnapshotRefusedIff`; without ready tasks, and with files and capacities as before, none arises. Failing
  rounds: `SchedulerWitnesses.NewPathIsRefused`, `SchedulerWitnesses.NewLinkIsRefused`.
- The listing order of reservations matters when two different entries share an id, because the sort by id is stable and the
  hash sees the result: `SchedulerOrder.ReservationOrderIrrelevantIff`, `SchedulerWitnesses.ListingMatters`. The order of ready
  tasks matters at most when two entries of one id depend on different tasks, because the index keeps the last:
  `SchedulerOrder.OrderIndependence`, `SchedulerWitnesses.ReadyOrderMatters`.
- Incremental and rebuilt index differ when a file scanned after a valid note shares its stem: the row of the moved note is
  deleted by its old document id, or a duplicate wins: `NoteIndexTheorems.SyncEqualsRebuildIff`,
  `NoteIndexWitness.ClashingDisagree`.
- Malformed documents are quarantined, but only `MalformedNote` and `OSError` are caught. Deep nesting or a number with too many
  digits makes `_parse_note` raise something else, and a lone surrogate cannot be stored. On a clash-free listing a pass
  succeeds if and only if no file is such: `NoteIndexTheorems.SyncReachesExpected`, `NoteIndexWitness.OneFileBlocks`.
- A failed status update reports that the canonical notes are restored. Both handlers call `connection.rollback()` unguarded
  before restoring, and a restore write can fail. A planned transition is all or nothing if and only if no step fails or no
  published note is left so: `LifecycleStore.AllOrNothingIff`, `LifecycleStore.CommitCanStrand`.
- The comment at `scripts/python/coordination.py:143-147` holds that reclaiming the lock of a dead owner is safe. Diagnosis
  and teardown are separate steps. From a fresh start exclusion holds over every run, deaths included, if and only if no
  process has two contenders outside it: `RenameLock.ExclusionIffNoRivals`; the failing run:
  `RenameLock.DeadHolderBreaksExclusion`.
- Some lines lose the frame: `json.loads` raises more than `ValueError` on deep nesting, and some JSON shapes make `_scan_event`
  raise. Frames catch up with a log at rest if and only if none of its complete lines below the chunk bound is such a line:
  `LogScan.DashboardCatchesUpIff`, `LogScan.RaisingLog`, `LogScan.DeepLog`.
- `update_dispatch_log` promises to preserve all other bytes. A bare CR at the end of the rewritten row is dropped, which
  merges the row with the next one: `DispatchLog.OnlyTheNewestLineChangesIff`, `DispatchLog.RewriteReadsBackIff`,
  `DispatchLog.CarriageReturnMerges`.
- Draining waits for as many rows as the generation number says. The row of a registration can be lost, over all schedules,
  if and only if its generation does not exceed the rows already logged for its task: `DispatchLosses.AppendCanBeLostIff`.
- A note whose plainly spelled frontmatter holds U+0085, U+2028 or U+2029 is written but cannot be parsed again:
  `NoteRoundTrip.NoteRoundTripIff`, `NoteRoundTrip.SeparatorIsRefused`.
- `_freeze_tree` stops the leader and its group before its rollback is armed, and the rollback continues the group only if the
  leader still looks as expected. A failed freeze has undone its stops (each process stopped alone is continued or gone, and the
  group is continued) if and only if the leader was not stranded before the rollback is armed, no listed process still there
  refuses to continue, and at the rollback's own look the leader is as expected and its group can be continued:
  `Teardown.Run.FreezeTree`. Two failing systems: `ProcessTree.LeaderCanBeStranded` and, for a leader killed once its group is
  stopped, `Teardown.FreezeOfVanishingLeader`.

## Model

| member | source | states |
|---|---|---|
| FileScopes.AliasIffSharedItem | scripts/python/board_router.py:168-182 | two scope keys alias exactly when some item lies under both |
| FileScopes.AncestorIsAbove | scripts/python/board_router.py:168-173 | the ancestor test holds exactly when the item continues the scope, trailing slashes aside, with a slash |
| Dependencies.DependencyIndex.Reachable | scripts/python/board_router.py:257-270 | the stack search terminates on cycles and finds a target exactly when a dependency path leads to it |
| ResourceLocks.LockTable.Grant | scripts/python/board_router.py:356-385 | one claim is granted exactly when it fits beside the held ones; the table then is the table of the held claims plus it, else unchanged |
| ResourceLocks.LockTable.Release | scripts/python/board_router.py:387-396 | releasing the last granted claim gives back the table of the claims before it |
| ResourceLocks.LockTable.TryAcquire | scripts/python/board_router.py:342-354 | all claims of a task or none: success exactly when held plus new claims are feasible; a failed call restores the table exactly |
| ResourceLocks.LockTable.AcquireEach | scripts/python/board_router.py:342-354 | asking for the claims of tasks in turn leaves the table of those that got theirs |
| ResourceLocks.TableForgetsOrder | scripts/python/board_router.py:335-396 | the table depends only on the multiset of held claims |
| ResourceLocks.FeasibleIsMonotone | scripts/python/board_router.py:356-385 | dropping claims never makes the rest infeasible |
| ResourceLocks.AllAcquirableIffFeasible | scripts/python/board_router.py:342-354 | acquiring tasks one after the other keeps all of them exactly when their claim totals are feasible |
| ResourceLocks.AcquirableInEveryOrder | scripts/python/board_router.py:335-396 | a set of tasks is acquirable in one order exactly when in every order, and the tables agree |
| ResourceMeaning.FeasibleMeans | scripts/python/board_router.py:306-311 | claims are feasible exactly when those on one resource go together pairwise and their counted units stay within what is declared for the target, else for the class, else one |
| BoardScheduler.BuildIndex | scripts/python/board_router.py:276-280 | the built index is the specified adjacency, later entries replacing earlier ones |
| BoardScheduler.ValidateActive | scripts/python/board_router.py:556-568 | the loop over the active snapshot reports the first conflict or failed acquisition and leaves the locks of the active claims |
| BoardScheduler.AdmitRunnable | scripts/python/board_router.py:594-613 | the greedy loop admits and records reasons as specified, with the lock table of the admitted claims |
| BoardScheduler.Schedule | scripts/python/board_router.py:472-640 | one round, with every refusal in order, equals its specification |
| SchedulerSafety.FilesConflictIsExact | scripts/python/board_router.py:185-200 | no file conflict exactly when no item and no file under one task's write scope is under any scope of the other |
| SchedulerSafety.WholeSetSafety | scripts/python/board_router.py:402-421 | in active plus newly running work no two tasks are connected in the round's dependency index, share written items or overrun a resource; nothing active is lost and growth stays within the concurrency bound |
| SchedulerMeaning.PreparedIff | scripts/python/board_router.py:494-551 | a request is accepted exactly when it is sound field by field, and the active tasks are those of unreleased reservations |
| SchedulerMeaning.SucceedsIff | scripts/python/board_router.py:494-568 | a round succeeds exactly when the request is sound and no two active tasks are tied, share a file or share a resource unfairly |
| SchedulerMeaning.RoundIsSafe | scripts/python/board_router.py:556-628 | every member has complete metadata, no two are tied or share a file one of them writes, and all resources are shared fairly |
| SchedulerMeaning.UnsoundPairConflicts | scripts/python/board_router.py:402-421 | two tasks of one id, or of which one lacks metadata, never go together |
| SchedulerMeaning.RoundStaysWithinDeclared | scripts/python/board_router.py:306-311 | the units that the members hold of a resource stay within its declared capacity, one if none is declared |
| SchedulerMeaning.RunnersMeaning | scripts/python/board_router.py:570-628 | who runs is named once, has complete metadata and settled dependencies, comes in order of urgency, fits beside the active and those before it, and has the gate's consent |
| SchedulerMeaning.WaitersMeaning | scripts/python/board_router.py:570-628 | the recorded reason of every other ready task is a fact about the request, about the active and more urgent tasks, or about the gate |
| SchedulerMeaning.WaitingMeaning | scripts/python/board_router.py:629-632 | the waiting ids are the ready ones that do not run, as often as listed |
| SchedulerDeclared.DeclaredSafety | scripts/python/board_router.py:276-280 | when the index still reaches every declared edge, as with distinct ids, no declared path joins two tasks that run |
| SchedulerHidden.RunsApartIffNothingHidden | scripts/python/board_router.py:556-613 | over all priorities, concurrency, settlements and gates, no round runs two tasks joined by a declared path exactly when no tasks that may join hide one |
| SchedulerWitnesses.DependentTasksCanRun | scripts/python/board_router.py:276-280 | a literal round with room for two: `x` alone is started, beside the active `a`, although `a`, `m` and `x` declare the path |
| SchedulerSafety.RoundProposal | scripts/python/board_router.py:570-613 | before the gate: proposed tasks are runnable, declared, compatible and feasible together, and every passed-over runnable task is blocked by them |
| SchedulerSafety.RoundAdmission | scripts/python/board_router.py:615-628 | after the gate the admitted tasks still are |
| SchedulerSafety.GreedyMaximality | scripts/python/board_router.py:594-613 | unless the gate deferred the round, no runnable task left out could be added to the final set: no slot, a conflict, or an infeasible claim total |
| SchedulerRounds.RoundLeavesSafeSet | scripts/python/board_router.py:615-640 | each successful round persists a safe set in id order, with the hash of that list |
| SchedulerRounds.SnapshotRefusedIff | scripts/python/board_router.py:500-568 | a returned snapshot, with any valid releases, is refused later exactly when new ready tasks connect two inherited tasks, two of them have come to share a file, or the new capacities are too small |
| SchedulerWitnesses.NewPathIsRefused | scripts/python/board_router.py:556-568 | two unrelated tasks are kept, and refused once a ready task joins them |
| SchedulerWitnesses.NewLinkIsRefused | scripts/python/board_router.py:168-200 | two writers are kept, and the same request is refused once their paths lead to one file |
| SchedulerRounds.SnapshotClosure | scripts/python/board_router.py:500-568 | fed back without ready tasks a snapshot comes back as exactly its unreleased reservations, hash included, if and only if no files have come to alias and the capacities suffice; so when neither changed |
| SchedulerOrder.OrderIndependence | scripts/python/board_router.py:507-640 | permuting reservations whose ids determine them, and ready tasks whose ids determine their dependencies, leaves running set, reasons, reservations, hash and errors the same |
| SchedulerWitnesses.ReadyOrderMatters | scripts/python/board_router.py:276-280 | two ready entries for `m` with different dependencies: one order is accepted, the other raises |
| SchedulerOrder.ReservationOrderIrrelevantIff | scripts/python/board_router.py:507-531 | the listing order of reservations is irrelevant exactly when equal ids mean equal entries |
| SchedulerOrder.OrderMatters | scripts/python/board_router.py:507-531 | otherwise some listing and hash give two different outcomes |
| SchedulerWitnesses.ListingMatters | scripts/python/board_router.py:507-518 | two literal reservations of one id: one listing is accepted, the other mismatches the hash |
| SchedulerOrder.EveryReadyTaskIsAccountedFor | scripts/python/board_router.py:570-640 | every ready id either runs or has a recorded reason, never both, and no other id is recorded |
| SchedulerOrder.IndexIsDeclaredGraphIff | scripts/python/board_router.py:276-280 | the index holds exactly the declared edges if and only if last entries cover earlier ones of their id |
| NoteDatabase.Database.UpsertConnection | plugins/chrono-vault/index.py:517-572 | a path owned by another id and a text that cannot be stored are refused; else the row of that id is replaced or added and its quarantine lifted |
| NoteDatabase.Database.ScanFile | plugins/chrono-vault/index.py:668-702 | one scanned file is kept, indexed, quarantined or refuses the pass, as specified |
| NoteDatabase.Database.SyncIndex | plugins/chrono-vault/index.py:648-726 | one incremental pass equals its specification; a refusal rolls back |
| NoteDatabase.Database.RebuildIndex | plugins/chrono-vault/index.py:792-900 | the two-pass rebuild equals its specification and fails exactly when a file raises or a note with an unshared id cannot be stored |
| NoteIndexTheorems.SyncReachesExpected | plugins/chrono-vault/index.py:648-726 | from any faithful index a pass over a clash-free listing succeeds exactly when no listed file breaks (parsing raises an uncaught error, or its text cannot be stored), and then leaves exactly the projections of the valid files and the quarantine of the others |
| NoteIndexTheorems.RebuildIsExact | plugins/chrono-vault/index.py:792-900 | a rebuild that succeeds holds exactly the projections of the valid files whose id no other valid file has |
| NoteIndexFields.SyncDescribes | plugins/chrono-vault/index.py:517-726 | after a clash-free pass each note has one row and text that say field by field what it says, each malformed file its quarantine entry, and there is nothing else |
| NoteIndexFields.RebuildDescribes | plugins/chrono-vault/index.py:517-900 | after a rebuild the same for notes with an unshared id; the others are set aside with their hash and reason, and the generation is the next one |
| NoteIndexFields.RebuildSucceedsIff | plugins/chrono-vault/index.py:820-850 | a rebuild succeeds exactly when no file makes parsing raise and every note with an unshared id can be stored |
| NoteIndexFields.PassesSayWhatTheyHash | plugins/chrono-vault/index.py:648-726 | over every run of passes, clashing or refused ones included, each row says what the note says whose content it hashes |
| NoteIndexFields.SyncCounts | plugins/chrono-vault/index.py:648-726 | unchanged notes are kept, others indexed, the rest quarantined; the generation moves by one exactly when something was indexed, removed or quarantined |
| NoteIndexTheorems.SyncEqualsRebuild | plugins/chrono-vault/index.py:648-726 | through any edits, deletions, moves and changes of validity, incremental equals rebuilt: rows, text and quarantine, or both are refused |
| NoteIndexTheorems.SyncEqualsRebuildIff | plugins/chrono-vault/index.py:648-726 | they agree from every faithful index exactly when no file scanned after a valid note shares its stem, or the rebuild is refused as well |
| NoteIndexWitness.ClashingDisagree | plugins/chrono-vault/index.py:673-683 | a listing and an index on which the two disagree |
| NoteIndexWitness.OneFileBlocks | plugins/chrono-vault/index.py:673-675 | one raising file beside a note: every pass and every rebuild fails |
| NoteIndexTheorems.SyncIsIdempotent | plugins/chrono-vault/index.py:648-726 | after a pass that succeeds, a second one over unchanged files succeeds and indexes and removes nothing |
| NoteIndexTheorems.EveryFileIsCounted | plugins/chrono-vault/index.py:668-702 | indexed, kept and quarantined counts add up to the listing |
| NoteLifecycle.RefreshIsStable | plugins/chrono-vault/notes.py:114-137 | refreshing the content reference twice is refreshing it once, and equal references mean equal lifecycle fields and text |
| NoteLifecycle.CreatesSupersessionCycle | plugins/chrono-vault/lifecycle.py:38-65 | the guarded, bounded walk answers exactly whether the note is reached within 4096 pointers |
| NoteLifecycle.UpdatedNotes | plugins/chrono-vault/lifecycle.py:225-304 | every check and in-place edit of a transition, as a plan of new notes or a refusal |
| SupersessionGraph.VerifiedIsSink | plugins/chrono-vault/lifecycle.py:236-248 | a verified note points nowhere, so the bound on the walk never matters |
| SupersessionGraph.CycleGuardNeverFires | plugins/chrono-vault/lifecycle.py:38-65 | on a well-formed store the cycle refusal is unreachable |
| SupersessionGraph.TransitionKeepsGraph | plugins/chrono-vault/lifecycle.py:225-304 | a planned transition keeps superseded = pointer set, mutual links and acyclicity |
| SupersessionGraph.TouchedNotes | plugins/chrono-vault/lifecycle.py:225-304 | at most three notes are touched, each gains one revision, and only the primary changes status or pointer |
| SupersessionGraph.RunKeepsGraph | plugins/chrono-vault/lifecycle.py:225-304 | over every run of transitions and new notes the graph stays well-formed |
| LifecycleRuns.ComparesRevision | plugins/chrono-vault/lifecycle.py:232-236 | a sound request for a note of another revision is refused with that revision, and what is planned compared equal |
| LifecycleRuns.StaleIsRefused | plugins/chrono-vault/lifecycle.py:232-236 | such a call ends refused with the revision found and every file as before |
| LifecycleRuns.PlannedIff | plugins/chrono-vault/lifecycle.py:225-345 | on a well-formed store a transition is planned exactly when the request is sound, the note is there in the expected revision, and the replacement is there and verified |
| LifecycleRuns.TransitionWrites | plugins/chrono-vault/lifecycle.py:256-304 | field by field what the primary, its former and its new replacement become, and that no other note changes |
| LifecycleRuns.CommittedRows | plugins/chrono-vault/lifecycle.py:374-384 | after a commit each planned note stands in its file and in its index row, and nothing else moved |
| LifecycleStore.Store.StageAll | plugins/chrono-vault/lifecycle.py:134-182 | staging writes every planned note aside and changes no note |
| LifecycleStore.Store.PublishAll | plugins/chrono-vault/lifecycle.py:185-194 | the first stages are published, up to the first failure, and marked as such |
| LifecycleStore.Store.RestorePublished | plugins/chrono-vault/lifecycle.py:206-222 | reports exactly the published notes whose restore fails; those not written back keep the new content, every other file is as before |
| LifecycleStore.Store.RollBack | plugins/chrono-vault/lifecycle.py:386-400 | the open transaction is rolled back first; if that raises nothing is restored, else restoring answers |
| LifecycleStore.Store.SetStatus | plugins/chrono-vault/lifecycle.py:307-431 | the outcome, every file, the index and the generation, with faults at any of staging, connecting, beginning, replacing, syncing, reparsing, indexing, committing, rolling back and restoring; done only from the expected revision; the graph is kept by every transition that is all or nothing |
| LifecycleRuns.AtMostOneDone | plugins/chrono-vault/lifecycle.py:307-431 | over every history of calls with any faults and new notes, of two calls that expect the same revision of a note at most one is done |
| LifecycleStore.AllOrNothingIff | plugins/chrono-vault/lifecycle.py:361-405 | a planned transition is all or nothing exactly when no step fails, or the transaction's rollback works and so does every restore write, or nothing was published |
| LifecycleRuns.EarlyFailure | plugins/chrono-vault/lifecycle.py:361-394 | a failure before the first replacement leaves every file as it was, and without a connection nothing is rolled back |
| LifecycleStore.CommitCanStrand | plugins/chrono-vault/lifecycle.py:384-394 | a failing commit whose rollback raises leaves every planned note changed |
| DelegationLineages.CoherentIffProduced | scripts/python/delegation_lineage.py:85-120 | strict validation accepts a lineage exactly when some budget admits a chain that produces it |
| DelegationLineages.DictRoundTrip | scripts/python/delegation_lineage.py:123-184 | a lineage survives its dictionary form exactly when coherent, and nothing incoherent is ever returned |
| DelegationLineages.IntersectionIsGreatest | scripts/python/delegation_lineage.py:218-245 | the intersection is the greatest read-only authority within all four inputs |
| DelegationRecords.CheckpointMeaning | scripts/python/coordination.py:398-516 | who is admitted, field by field, and what an admitted checkpoint stores: identity, parties, lineage, authority, creation, time to live, deadline and ledger |
| DelegationRecords.DenialMeaning | scripts/python/coordination.py:443-495 | every denial names a fact about the request |
| DelegationRecords.InjectMeaning | scripts/python/coordination.py:540-601 | every answer to a result names a fact about the record; only an honest one in time settles, only a late one makes stale |
| DelegationRecords.DispatchAndCancelMeaning | scripts/python/coordination.py:528-610 | what dispatch and cancellation write, and that every other record is left alone |
| DelegationRecords.SweepMeaning | scripts/python/coordination.py:612-628 | a sweep makes stale exactly the open records it visits whose deadline has come |
| DelegationRecords.SettlesBeforeDeadline | scripts/python/coordination.py:398-601 | over runs an admitted, dispatched and spared delegation is settled by an honest result exactly when it comes before the seconds asked for have passed, else it turns stale |
| CoordinationStore.CoordinationStore.CountInFlight | scripts/python/coordination.py:518-526 | the loop counts the non-terminal records of the acting parent |
| CoordinationStore.CoordinationStore.TrustedRootIdentity | scripts/python/coordination.py:330-377 | a root is trusted exactly when it names the acting task or the lineage was admitted before |
| CoordinationStore.CoordinationStore.CheckpointDelegation | scripts/python/coordination.py:398-516 | every denial, the idempotent return, and the two writes with a crash point between them |
| CoordinationStore.CoordinationStore.Inject | scripts/python/coordination.py:540-601 | stale, duplicate, late and forged returns are fenced as specified |
| CoordinationStore.CoordinationStore.SweepExpired | scripts/python/coordination.py:612-628 | exactly the expired open records among those visited turn stale, also when the sweep is cut short |
| DelegationInvariants.RunKeepsInvariant | scripts/python/coordination.py:398-526 | over every run with crashes: records within ledger within cap, in-flight within the concurrency cap, and every record has its provenance |
| DelegationInvariants.GlobalDelegationCap | scripts/python/coordination.py:443-516 | no interleaving stores more delegations under a root than the total cap |
| DelegationInvariants.LedgerIsExact | scripts/python/coordination.py:490-516 | the ledger is the stored records plus the crashed attempts |
| DelegationInvariants.ProvenanceUnrolls | scripts/python/coordination.py:330-390 | every record unrolls through stored records, as many as its depth, to a depth-one record of its originating parent |
| DelegationInvariants.TerminalIsFinal | scripts/python/coordination.py:528-628 | no step rewrites a terminal record or any delegation, or drops a record |
| DelegationInvariants.CheckpointIsIdempotent | scripts/python/coordination.py:443-446 | repeating an admitted checkpoint after any run returns the stored record and changes nothing |
| DelegationLives.SettledLife | scripts/python/coordination.py:528-601 | over every run a settled record was absent, checkpointed, dispatched and settled in this order by three determined actions, only one of them an honest result in time, and it carries that result |
| DelegationLives.SettledIffHonestResult | scripts/python/coordination.py:540-601 | a record ends settled exactly when some action of the run was an honest result of its generation, in time, while it was dispatched |
| RenameLock.StepKeepsInvariant | scripts/python/coordination.py:152-199 | any single file-system step keeps the lock and its one holder in agreement, unless a holder dies |
| RenameLock.LockIsExclusive | scripts/python/coordination.py:152-199 | without a holder's death at most one contender holds the lock and the lock directory is never seen without its owner |
| RenameLock.DeadHolderBreaksExclusion | scripts/python/coordination.py:81-93 | for any contender and any two outside its process a run exists in which it dies holding and both end in the critical section |
| RenameLock.ExclusionIffNoRivals | scripts/python/coordination.py:152-199 | exclusion holds over all runs, deaths included, exactly when no process has two contenders outside it |
| LogEvents.MarkedMeans | bin/vs-board-dashboard.py:457-525 | a line is looked at exactly when one of the three marker texts stands in it |
| LogEvents.StopsAreCounted | bin/vs-board-dashboard.py:484-490 | the stop count grows by the number of texts that begin with the notice after nothing but space; a quotation does not count |
| LogEvents.LineKeepsWarnings | bin/vs-board-dashboard.py:462-490 | no line retracts a fallback or lowers the stop count |
| LogEvents.ModelOnlyFromMainThread | bin/vs-board-dashboard.py:475-480 | only an assistant event of the main thread changes the model, to the one it names |
| LogScan.ScanLog | bin/vs-board-dashboard.py:493-537 | one frame: restart, chunk, skip state and line loop equal their specification |
| LogScan.FrameTracks | bin/vs-board-dashboard.py:493-537 | a frame keeps the entry equal to the reference fold, raises only where the fold raises, and advances until caught up |
| LogScan.FrameTimingIndependence | bin/vs-board-dashboard.py:493-537 | whatever the interleaving of growth and frames, the entry is the fold over the complete short lines it consumed |
| LogScan.CatchesUpIff | bin/vs-board-dashboard.py:493-537 | for any line scanner, repeated frames catch up with a file at rest exactly when the fold of its complete short lines does not raise, and then hold that fold |
| LogScan.DashboardCatchesUpIff | bin/vs-board-dashboard.py:462-537 | with the dashboard's scanner and bound, frames catch up exactly when no complete short line is marked and either makes decoding raise something uncaught, or decodes to an assistant event with content that cannot be iterated or a fallback block with a bad target, or names a target that cannot be rendered |
| LogScan.RaisingLog | bin/vs-board-dashboard.py:469-474 | the log of one assistant event with content `true` is never caught up with |
| LogScan.DeepLog | bin/vs-board-dashboard.py:525-533 | the log of one marked line nested too deep to decode is never caught up with |
| LogScan.FoldMeaning | bin/vs-board-dashboard.py:462-490 | whatever the chunks, a fallback is shown exactly when some complete short line reports one, target and model are what the last naming lines name, and the stops are as many as user texts begin with the notice |
| LogScan.FoldKeepsWarnings | bin/vs-board-dashboard.py:462-490 | warnings persist along the fold |
| ProcessTree.Descendants | scripts/python/board_process_truth.py:770-781 | the growing set ends as the least set with the seeds and all children of its members |
| Teardown.Run.SignalIdentity | scripts/python/board_process_truth.py:714-752 | a signal is sent exactly when the incarnation is seen alive in the same step and the system delivers it |
| Teardown.Run.FreezeTree | scripts/python/board_process_truth.py:755-822 | success captures exactly the tree of one census with all outsiders stopped; a failure has undone its stops, the group's included, exactly when the leader was not stranded and the system lets the rollback through |
| ProcessTree.LeaderCanBeStranded | scripts/python/board_process_truth.py:758-765 | a system in which any leader is stopped and not continued |
| ProcessTree.LeaderCanVanish | scripts/python/board_process_truth.py:806-822 | a system in which any leader and its group are stopped and no later rollback reaches the group |
| Teardown.FreezeOfVanishingLeader | scripts/python/board_process_truth.py:755-822 | on that system the freeze fails and leaves the group stopped |
| Teardown.Run.SignalMember | scripts/python/board_process_truth.py:847-862 | a changed pid is never signalled, a mismatch marks it, every other member is tried |
| Teardown.Run.Remaining | scripts/python/board_process_truth.py:872-931 | one census: every member live or seen gone, every row adopted or shown not to qualify, and the group closed for good when emptied or changed |
| Teardown.Run.AdoptRow | scripts/python/board_process_truth.py:906-928 | a row is adopted only with its witness: still in the open group, or child of a member seen alive after it |
| Teardown.Run.KillRound | scripts/python/board_process_truth.py:943-949 | after a round every member was seen gone, found changed, or had a kill tried on it |
| Teardown.Run.TerminateTree | scripts/python/board_process_truth.py:825-962 | terminates; signals reach captured incarnations only and no changed pid; every frozen member is told to terminate, every member known before the last census is seen gone, found changed or has a kill tried on it; normal return means no change, no failed census, no failed signal, and nobody left at the last census |
| Teardown.Run.KillRounds | scripts/python/board_process_truth.py:942-951 | at least one round kills every known member that is neither gone nor changed |
| Teardown.Run.Wait | scripts/python/board_process_truth.py:933-937 | no signal is sent until the grace is over or every member is seen gone |
| ProcessTree.AttributionIsGrounded | scripts/python/board_process_truth.py:900-931 | every member unrolls through recorded parents to the frozen tree or the group |
| DispatchLog.SplitJoinIff | scripts/python/dispatch_log.py:239-270 | joined lines split back into themselves exactly when no ending is missing or swallowed |
| DispatchLog.RenderUpdate | scripts/python/dispatch_log.py:238-270 | the scan refuses malformed logs and missing tasks and rewrites the last matching line |
| DispatchLog.TaskCounts | scripts/python/dispatch_log.py:273-290 | the tally is the number of rows of each task, refused exactly on malformed logs |
| DispatchMeaning.RewriteMeaning | scripts/python/dispatch_log.py:238-270 | a rewrite succeeds exactly when no line is garbage and some line names the task; then the last such line alone is replaced, by its row with the new count and its own ending |
| DispatchMeaning.LineIsRead | scripts/python/dispatch_log.py:242-254 | a line is blank, a row or garbage by what stands between the space at its ends |
| DispatchMeaning.CountMeaning | scripts/python/dispatch_log.py:286-290 | a task is counted once for each of its rows |
| DispatchLog.OnlyTheNewestLineChangesIff | scripts/python/dispatch_log.py:238-270 | all other lines keep bytes and boundaries exactly when the rewritten one keeps its ending |
| DispatchLog.RewriteReadsBackIff | scripts/python/dispatch_log.py:238-270 | the result is readable exactly then or when only space follows, and holds the old rows with the newest matching one updated |
| DispatchLog.CarriageReturnMerges | scripts/python/dispatch_log.py:238-270 | for any two rows, the first ending in a bare CR and newest for its task, the rewrite cannot be read |
| DispatchProtocol.LogFile.Update | scripts/python/dispatch_log.py:365-391 | the file is replaced by the rendered text, left alone when equal, and untouched on refusal |
| DispatchProtocol.StepKeepsInvariant | scripts/python/dispatch_log.py:293-337 | each step of senders and updater does to the rows what it would do alone |
| DispatchProtocol.RunIsSequential | scripts/python/dispatch_log.py:293-391 | every interleaving leaves the rows of its appends and rewrites done one after the other |
| DispatchProtocol.EveryAppendSurvives | scripts/python/dispatch_log.py:293-391 | when every registration counts, no appended row is ever lost, reordered or changed but for its skills count |
| DispatchLosses.SurvivorsExactly | scripts/python/dispatch_log.py:293-391 | whatever the registrations, the log holds the rows it started with and exactly the surviving appends, in order |
| DispatchLosses.LostIffOvertaken | scripts/python/dispatch_log.py:376-387 | an append is lost exactly when it falls between a read and the replacement that follows it |
| DispatchLosses.CountingRowSurvives | scripts/python/dispatch_log.py:304-337 | the row of a counting registration survives every run, whatever other registrations do |
| DispatchLosses.AppendCanBeLostIff | scripts/python/dispatch_log.py:304-337 | from a log at rest, over all schedules of all senders, the row of a registration can be lost exactly when its generation does not exceed the rows of its task |
| FtsQuery.QueryRoundTrip | plugins/chrono-vault/query.py:59-62 | reading a compiled query as quoted literals joined by OR recovers exactly its terms |
| FtsQuery.ReadableIsCompiled | plugins/chrono-vault/query.py:59-94 | every readable query is the compiled form of its terms |
| FtsQuery.DeduplicatedCovers | plugins/chrono-vault/query.py:65-74 | kept terms are distinct up to case, come from the list and stand for all of it |
| FtsQuery.Deduplicate | plugins/chrono-vault/query.py:65-74 | the loop keeps first occurrences up to case |
| FtsQuery.QueryTermsAreFaithful | plugins/chrono-vault/query.py:77-94 | one to 32 terms, all tokens of the text or the sentinel; within the limit every token that is no stopword is searched |
| FtsMeaning.TermsMeaning | plugins/chrono-vault/query.py:77-94 | the terms are the first occurrences up to case, in order, without stopwords, at most 32; all of them when nothing else is left, a sentinel when there are none |
| FtsQuery.BlankQuoted | plugins/chrono-vault/recall.py:477-492 | the index loop blanks exactly the quoted parts |
| FtsQuery.NoSelectorInCompiled | plugins/chrono-vault/recall.py:477-496 | in a compiled or expanded query the selector pattern matches nowhere |
| FtsQuery.ExpansionAppends | plugins/chrono-vault/recall.py:135-149 | expansion reads as the original terms followed by the added ones |
| FtsQuery.ExpansionTerms | plugins/chrono-vault/recall.py:115-132 | added terms are absent members of triggered groups, distinct up to case, at most sixteen, and all of them when fewer |
| FtsMeaning.ExpansionMeaning | plugins/chrono-vault/recall.py:107-133 | added are exactly aliases, absent from the text, of something that stands in it as a run of whole words |
| FtsMeaning.NothingExpands | plugins/chrono-vault/recall.py:135-149 | a text in which no alias occurs keeps its query |
| FtsMeaning.SelectorIsSeen | plugins/chrono-vault/recall.py:477-496 | outside quotes a name before a colon, with or without a dot, is refused unless it names a field |
| FtsMeaning.SeenIsSelector | plugins/chrono-vault/recall.py:82-84 | what counts as a selector starts with a letter or underscore, not inside a word, and stands before a colon |
| FtsQuery.BuildExpandedFtsQuery | plugins/chrono-vault/recall.py:135-149 | the expanded query reads as query terms plus expansion and holds no column selector |
| FrontmatterJson.CharRoundTrip | plugins/chrono-vault/notes.py:244-263 | either spelling of any character reads back, surrogate pairs included |
| FrontmatterJson.ValueRoundTrip | plugins/chrono-vault/notes.py:244-263 | null, integers, strings and string lists read back from any mix of spellings |
| NoteText.Serialize | plugins/chrono-vault/notes.py:266-274 | the loop prints each field in order and refuses what screening refuses |
| NoteText.ParseNote | plugins/chrono-vault/index.py:396-421 | opening, closing marker, lines, duplicate keys and field set as specified |
| NoteRoundTrip.ValueBreaksIff | plugins/chrono-vault/notes.py:244-263 | a printed value splits into lines exactly when a plainly spelled string holds a separator JSON leaves alone, and its first piece is then no JSON |
| NoteRoundTrip.NoteRoundTripIff | plugins/chrono-vault/index.py:396-421 | a written note reads back with every field and its body, exactly unless such a separator occurs; then it is refused, never misread |
| NoteRoundTrip.SeparatorIsRefused | plugins/chrono-vault/index.py:405-411 | a note titled U+2028 is written and refused when read |

## Left out

- SQLite transactions, WAL, fsync, symlink and inode checks, permissions: tables are maps and file replacement is atomic.
- Redaction and screening: `clean` is any predicate on text; the rejected texts themselves are not modelled.
- The `usage` and `recall_returned` tables, the carry-over of their rows into a rebuild, and audit events: they do not touch the modelled rows.
- Schema validation after frontmatter is read (ids, dates, enumerations): any parser whose note id is the file stem is allowed in the index model, and the round trip ends with the field set.
- Checks that a value has the expected Python type; the model's values are typed.
- Truncation of delegation ids and lineage hashes: ids are injective in what they hash.
- NoteIndexTheorems.SyncEqualsRebuildIff: takes for granted that a note accepted in one type directory can be rewritten for another, which the parser's type check allows.
- DispatchProtocol.EveryAppendSurvives: a sender leaves the queued state itself, after its append or without ever appending; another process that cancels a queued task while its sender still appends is not modelled, and an append is one atomic write of a whole line.
- RenameLock.LockIsExclusive: process ids are not reused and the wall clock only decides when a contender gives up.
- ResourceLocks.LockTable.TryAcquire: claims whose mode is none of count, read and write are not covered; `is_ambiguous` keeps them out of every round, and for them the rollback does not give the units back.
- Teardown.Run.TerminateTree: an observation and the signal after it are one step, as the code has no way to make them one; start token and argument hash are taken to identify an incarnation; the clock is assumed to pass every deadline.
- FtsQuery.NoSelectorInCompiled: the regular expression is represented by the texts it can match at any position, which covers its leftmost, longest choice.
- FrontmatterJson.ValueRoundTrip: the interpreter's limit on the digits of an integer, which stops writing it as well as reading it.
- FrontmatterJson.Decode: JSON kinds that no note holds (objects, floats, booleans, nested lists) and lone surrogates read as failures.
- `descriptor_error`, `finalize_receipt`, `cancel_attempt` and `reap_dead_attempt` around the teardown: file fences with one branch each.
- `record`, contradiction directives and `record_usage`: new notes enter the lifecycle model as unlinked and not superseded.
- Dashboard drawing, daemons, HTTP and MCP servers, media and reconnaissance plugins, capability cards, disk hygiene: user interface and process plumbing.
