# Verified model of the irodsfs mount daemon

A Dafny model of `irodsfsd`, the daemon that starts, supervises, retries, unmounts and restores file-system
mounts, and of its client. The model covers the parts in which several goroutines, timers, requests, crashes or
connections interleave, and the sequential code beneath them. Verify it with `dafny verify dfyconfig.toml`.

## How the model is built

**One mount entry** (`Controller`, `ControllerProofs`, `ControllerTheorems`, `RetryPolicy`, `MountedStability`,
`RetryProspects`, `AttemptsOver`, `BadExits`, `ExitVerdicts`, `FailureVerdicts`, `Lifecycle`, `SplitPersist`). A `managedMount` is a
state machine whose steps are the critical sections of `entry.mutex`. `entry.operation` is an owner variable, the
goroutines and timers are a sequence of threads with a generation each, and results of probes, commands, clocks and
writes are arguments of the steps, so every theorem holds for all of them. Timers are never cancelled: what is proved
rests on the generation fence alone.

**Durable intent** (`Repository`, `Base64Url`, `FlatStore`, `MountRepository`, `Reconcile`, `Ledger`, `Durable`,
`DurableProofs`, `DurableTheorems`, `RestartTheorems`, `RejectedUnmount`, `OverwriteWitnesses`, `BlockedEntry`). The
repository is first two maps, then a flat key-value store that refines them. `Durable` puts any number of entries, the registry, the
repository, reconciliation, crashes and restarts into one machine; `Ledger` is that machine with each entry reduced to
its rights over its record, where the invariant is proved. It is proved record by record: an entry that overwrites a
record it does not own voids what is said of that record, until the record is deleted or the process ends, and of no
other.

**The client** (`Client`, `ClientTheorems`, `ClientRecovery`, `ClientReconnect`, `ClientExclusion`,
`ClientOverlap`). Callers, background reconnect loops, `Connect` and `Disconnect` are threads over shared fields; one step is one atomic operation or critical section.

**Events** (`Events`, `EventTheorems`, `EventDelivery`). One subscriber that asks for the current mounts, any number of mounts and
publishing goroutines.

**Sequential cores** (`Redaction`, `LogLines`, `LogStore`, `LogQuery`, `Backoff`, `MountInfo`, with `Text` and
`Paths` beneath). In-place code is modelled by classes and loops, each proved against a function.

`MountTypes` and `Options` hold shared types.

## What the proofs show about the code

Where a promised property is false of the code, the model keeps the code, shows a concrete run or input, and proves
the exact condition.

- A rejected `Unmount` (its tombstone write fails) has already bumped the generation, so the entry's timers and
  goroutines are stale: it stays in RETRY_WAIT with no retry to come (`StrandedRetryExists`). RETRY_WAIT has a live
  timer if and only if the last bump was not a rejected `Unmount` (`RetryWaitScheduledIff`).
- A persist that falls between an `Unmount` request and its refusal writes the tombstone of an `Unmount` that does not
  take place, and a restart then forgets the mount, MOUNTED as it is (`RefusedUnmountForgotten`), against the comment at
  service/mount_manager.go:548-550. Such a persist is `waitForMount`'s, which holds no operation lock. A refused `Unmount`
  leaves an ordinary record if and only if the record was ordinary and no such persist has succeeded
  (`RejectedLeavesOrdinaryIff`).
- A persist of an entry that does not own the record overwrites another entry's: `Mount` registers its entry before
  `Create` and keeps it when `Create` fails, and shutdown persists it (`RevivedTombstoneExists`); or the entry's own
  record was deleted with its `Unmount`, the ID was mounted again, and a goroutine of the old entry persists late, which
  turns the new mount's record into a tombstone (`PredecessorBuries`) that a restart carries out (`SuccessorForgotten`).
  `PersistRevivesIff` and `PersistBuriesIff` are the exact conditions of both directions. The accepted `Unmount` of such
  an entry buries and deletes a record it never owned (`UnownedUnmountDeletes`, `AcceptedBuries`, `RemovalDeletes`).
- The path index breaks on the manager's own runs (`MovedRecordExists`): the old path stays refused although no record has
  it, and two records come to share the new one (`PathSharedExists`). A write breaks it if and only if its entry does not
  own the record, or another entry has overwritten the record, and their cleaned paths differ (`WriteMovesIff`).
- An entry whose `Create` failed while its ID has no record can never be unmounted, since `Update` finds no record; it
  blocks its ID and its path until the process ends (`BlockedForever`).
- With the snapshot and the write of a persist taken apart, the tombstone of an accepted `Unmount` can become ordinary
  again if and only if a snapshot taken before the `Unmount` is still to be written (`SplitPersist.RevivedIff`).
- A mount that irodsfs has given up for a bad configuration or login (exit 10 or 11) can be retried all the same: the
  timeout of the same attempt still schedules a retry (`FailedIsRetried`), since its guard excludes only MOUNTED. The
  failure is final if and only if no retry is due, and the budget is used up or no `waitForMount` of that attempt is left
  (`BadExitIsFinalIff`; `NoFurtherAttemptIff` for every entry).
- `SubscribeMountEvents` sends the initial snapshots while it holds `eventMutex`, before its caller has the channel. It
  can return if and only if at most 64 listed mounts are wanted (`SubscribeReturnsIff`); otherwise no event is ever
  published again (`StuckForever`).
- Two threads can come to reconnect at once if and only if some `Disconnect` has lowered the flag under a thread that is
  reconnecting; without one no state has two (`OneReconnectAtATime`). One caller's loop then cancels another's, which a
  comment in the code takes to be impossible (`OverlapExists`).
- Redaction hides every secret in every line, for non-empty secrets without brackets, if and only if no secret is part
  of the word REDACTED (`RedactionTheorem`); the line `[REDACTED]` is the leak (`MarkLeaks`). `OneSecretTheorem` is the
  exact condition for any one secret, brackets or not.
- `isMountPoint` sees a mount point only up to white space that the kernel prints unescaped, and takes the second part of
  a root with such white space for a mount point (`ShiftedRootMisleads`). `ListedIsSeen` says exactly what it answers, and
  `AnswersRightlyIff` when all answers are right, for every table of clean mount points.

## Model

| member | source | states |
|---|---|---|
| `ControllerProofs.InvStep` | service/mount_manager.go:311-1500 | every step of every goroutine, timer, request and shutdown keeps the invariant on channels, operation owner, intent, threads, retry budget and schedule |
| `ControllerTheorems.ReachableInv` | service/mount_manager.go:376-420 | the invariant holds in every state reachable from an entry created by Mount or remount |
| `ControllerTheorems.FencedForever` | service/mount_manager.go:1112-1144 | a goroutine or timer of an old generation, whenever it acts later in any run, changes no info, intent, generation, operation or pending write, and neither adds nor changes another thread or timer |
| `ControllerTheorems.OneSuccessorPerGeneration` | service/mount_manager.go:1269-1303 | each generation leads to at most one further mount attempt and starts at most one child, even when the crash and the timeout path both scheduled a retry |
| `ControllerTheorems.SupersededStartsNothing` | service/mount_manager.go:517-560 | once any Unmount request has bumped the generation, no later step begins an attempt or starts a child |
| `ControllerTheorems.AcceptedForever` | service/mount_manager.go:544-560 | after a successful tombstone write every later state is unmounting, in UNMOUNTING, RETRY_WAIT or FAILED, with no new attempt or child |
| `ControllerTheorems.ExitDoneClosedOnce` | service/mount_manager.go:1112-1117 | no exitDone channel is ever closed twice, and when the operation lock is free each is closed or has a live waitForProcess that will close it |
| `ControllerTheorems.WaiterIsServed` | service/mount_manager.go:610-625 | an Unmount or shutdown waiting on exitDone can go on, or some child's exit lets it go on |
| `ControllerTheorems.RetriesBounded` | service/mount_manager.go:222-227 | with the maximum as configured if positive and five otherwise: on every run Attempt stays within the larger of the maximum and the restored value, attempts and children within the budget, and a live timer implies an attempt is left |
| `ControllerTheorems.MountChildrenBounded` | service/mount_manager.go:1205-1217 | an entry created by Mount starts at most as many children in its life as attempts are configured, or five |
| `ControllerTheorems.RetryWaitScheduledIff` | service/mount_manager.go:551-557 | a reachable RETRY_WAIT has a timer of the current generation if and only if the last bump was not a rejected Unmount |
| `ControllerTheorems.RejectedIsStranded` | service/mount_manager.go:551-557 | after a rejected Unmount no run without a new request or shutdown changes info or generation |
| `ControllerTheorems.StrandedRetryExists` | service/mount_manager.go:534-557 | a reachable entry waits for a retry that no timer will start |
| `RetryPolicy.MountedOnceIsNotRemounted` | service/mount_manager.go:1212-1217 | without auto_remount, an entry that was ever mounted begins no further attempt on any run |
| `AttemptsOver.NoFurtherAttemptIff` | service/mount_manager.go:1205-1396 | for every reachable entry: no run begins a further attempt if and only if an Unmount has superseded it, or no retry is due and the budget is used up, or the attempt is past its start, no waitForMount of it can time out, and its child, if any, cannot report a failure that is retried |
| `BadExits.NonRetryableIsFinalIff` | service/mount_manager.go:1205-1249 | handling a crash that must not be retried ends in FAILED, and this is final under exactly that condition, judged before the step |
| `BadExits.BadExitIsFinalIff` | service/mount_manager.go:1112-1162 | the same from the exit of irodsfs with status 10 or 11 on, whatever happens between the exit and its handling (`ExitIsCrashIff` says which exits are crashes at all) |
| `BadExits.CrashWaits` | service/mount_manager.go:1112-1144 | on every run a crash keeps its failure code until it is handled |
| `BadExits.FailedIsRetried` | service/mount_manager.go:1365-1396 | a reachable FAILED mount with a bad configuration that its own timeout puts into RETRY_WAIT with a timer |
| `ExitVerdicts.ExitIsCrashIff` | service/mount_manager.go:1112-1144 | in every reachable entry whose current attempt's child runs, and that is not unmounting, timed out or stopping, the exit is a crash if and only if the configured client is irodsfs or the exit was not clean, with the code that belongs to the client and the status |
| `ExitVerdicts.ExpectedExitIsNoCrash` | service/mount_manager.go:1112-1144 | an exit that is stale, or that an unmount, a timeout or a shutdown expects, is none |
| `ExitVerdicts.CrashFromExit` | service/mount_manager.go:1112-1144 | no other step makes a thread report a crash |
| `ExitVerdicts.HelperExitKeepsMounted` | service/mount_manager.go:1112-1144 | a MOUNTED NFS or DAVFS entry stays MOUNTED through every run in which children exit cleanly, its own mount helper among them, until an Unmount or the end of a shutdown |
| `FailureVerdicts.UnmountFailureIff` | service/mount_manager.go:1437-1468 | a failed unmount goes to RETRY_WAIT with a timer of the current generation if and only if the attempt is below the configured maximum, or five, and to FAILED without one otherwise |
| `FailureVerdicts.TimeoutFailureIff` | service/mount_manager.go:1365-1396 | so does a timed-out mount, if the clean-up succeeded, and an entry that was once mounted only with auto_remount |
| `FailureVerdicts.StartFailureIff` | service/mount_manager.go:1179-1241 | so does a mount whose command does not start |
| `FailureVerdicts.CrashFailureIff` | service/mount_manager.go:1130-1144 | so does a crashed one, if what it left was cleaned up and the failure may be retried at all |
| `FailureVerdicts.UnmountCountsFromOne` | service/mount_manager.go:534-545 | an Unmount counts its attempts from one; a repeated request goes on counting |
| `FailureVerdicts.RetryUnmountBegins` | service/mount_manager.go:1473-1500 | a retry timer begins another unmount attempt, with the count one higher, if and only if it is of the current generation |
| `FailureVerdicts.RetryMountBegins` | service/mount_manager.go:1269-1303 | the like for a mount attempt, on a new open channel and with the timeout flag down |
| `FailureVerdicts.TryAgainIff` | service/mount_manager.go:1437-1500 | for every reachable entry with an accepted Unmount: some run without a new request begins another unmount attempt if and only if its retry timer is waiting, or the unmount is under way, not yet past removal, with an attempt left |
| `Lifecycle.EntersIff` | service/mount_manager.go:1305-1396 | of all steps, an entry becomes MOUNTED if and only if its current attempt, still mounting and not being unmounted, sees the mount point, or an Unmount of a mounted entry is refused; it is cleaned up after a timeout if and only if the deadline of the current attempt passes before it is mounted or unmounted |
| `Lifecycle.CreateVerdict` | service/mount_manager.go:400-427 | a refused Create leaves the entry FAILED with its channel closed |
| `Lifecycle.RejectedRestores` | service/mount_manager.go:534-557 | a refused Unmount restores state and intent, but neither generation nor attempt count |
| `Lifecycle.MountCanSucceed` | service/mount_manager.go:429-497 | from every reachable entry of a known client that is about to start, or whose retry is due, some run ends MOUNTED |
| `Lifecycle.UnmountCanComplete` | service/mount_manager.go:499-660 | from every reachable entry, whoever holds the operation lock, some run ends with the mount unregistered |
| `Lifecycle.ShutdownCanComplete` | service/mount_manager.go:1034-1106 | every shutdown that may begin can end, with the entry in PENDING_MOUNT and that still to be persisted |
| `MountedStability.MountedIsStable` | service/mount_manager.go:1305-1396 | on every run only the handling of the child's exit, an Unmount request or the end of a shutdown takes an entry out of MOUNTED; no timeout, retry timer or leftover goroutine does |
| `MountedStability.MountedIsNotRemounted` | service/mount_manager.go:1212-1217 | without auto_remount, an entry that has reached MOUNTED begins no further attempt on any run |
| `Repository.CreateKeepsConsistent` | service/store/mount_repository.go:87-127 | a successful Create keeps records and path index exact inverses on cleaned paths |
| `Repository.DeleteKeepsConsistent` | service/store/mount_repository.go:157-190 | so does a Delete |
| `Repository.UpdateKeepsConsistentIff` | service/store/mount_repository.go:131-152 | an Update does so if and only if it keeps the record's cleaned path |
| `Repository.DeleteUndoesCreate` | service/store/mount_repository.go:157-190 | deleting what was just created restores the repository |
| `Repository.CreateIff` | service/store/mount_repository.go:87-127 | a record is created if and only if it has an ID and an absolute path, the ID is unused and no record has the same cleaned path; which error is reported otherwise; nothing else changes |
| `Repository.UpdateIff` | service/store/mount_repository.go:131-152 | a record is replaced if and only if it has an ID and an absolute path and the ID is stored; the index stays as it is |
| `Repository.DeleteIff` | service/store/mount_repository.go:157-190 | a deletion needs an ID, removes its record and every path of it, and nothing else |
| `Repository.PathsUnique` | service/store/mount_repository.go:21-29 | two records never share a cleaned path |
| `Repository.OperationsKeepConsistent` | service/store/mount_repository.go:26-37 | every sequence of operations under the immutable-path contract keeps the bijection |
| `Paths.CleanIdempotent` | service/store/mount_repository.go:272-272 | cleaning a path twice is cleaning it once |
| `Paths.CleanSlashes` | service/store/mount_repository.go:272-272 | the rules that define the cleaned path: repeated slashes count as one |
| `Paths.CleanDot` | service/store/mount_repository.go:272-272 | a current directory is dropped |
| `Paths.CleanParent` | service/store/mount_repository.go:272-272 | a parent directory goes together with the element before it |
| `Paths.CleanRootParent` | service/store/mount_repository.go:272-272 | and is dropped at the root |
| `Paths.CleanKeeps` | service/store/mount_repository.go:272-272 | a path of plain elements is kept |
| `Paths.CleanIsPlain` | service/store/mount_repository.go:272-272 | and every cleaned absolute path is one |
| `Base64Url.RoundTrip` | service/store/mount_repository.go:80-82 | decoding undoes the path encoding for every byte string |
| `Base64Url.EncodeInjective` | service/store/mount_repository.go:78-82 | distinct paths have distinct encodings |
| `Base64Url.NoSlash` | service/store/mount_repository.go:78-82 | an encoded path contains no slash |
| `Base64Url.EncodedLength` | service/store/mount_repository.go:80-82 | the encoding is unpadded |
| `Base64Url.GroupIsOneNumber` | service/store/mount_repository.go:80-82 | three bytes are read as one number, whose digits in base 64 are written most significant first |
| `Base64Url.TestVectors` | service/store/mount_repository.go:80-82 | the vectors of section 10 of RFC 4648, and the digits that are safe in URLs |
| `FlatStore.KeySpacesDisjoint` | service/store/mount_repository.go:15-18 | mount, path and schema keys never coincide, and none has another's prefix |
| `FlatStore.PathKeyInjective` | service/store/mount_repository.go:80-82 | distinct paths have distinct keys |
| `FlatStore.RepresentsUnique` | service/store/mount_repository.go:39-46 | a store represents at most one repository |
| `FlatStore.ExecuteRefines` | service/store/mount_repository.go:102-190 | each transaction commits or fails with the same error as the operation on the two maps, and its result represents the operation's result |
| `FlatStore.ReplayRefines` | service/store/mount_repository.go:87-190 | so does every sequence of operations |
| `MountRepository.MountRepository.constructor` | service/store/store.go:27-27 | a new store represents the empty repository |
| `MountRepository.MountRepository.Try` | service/store/mount_repository.go:66-69 | one db.Update: it succeeds if and only if the store works, the body does not abort, and it writes nothing or nobody got in between; the effect on success, and which error otherwise |
| `MountRepository.MountRepository.UpdateWithConflictRetry` | service/store/mount_repository.go:63-72 | for every conflict pattern and every interference by other writers: all attempts before the last collided, the last did only if it was the tenth, and the transaction is applied exactly once on success and not at all on error |
| `MountRepository.EndedRefines` | service/store/mount_repository.go:63-72 | the same told of the abstract repository, with the errors, and exactly when the last attempt succeeds |
| `MountRepository.WriteSucceedsIff` | service/store/mount_repository.go:53-72 | a write succeeds if and only if one of the first ten attempts commits and all before it collided; it reports a conflict if and only if all ten did |
| `MountRepository.MountRepository.Create` | service/store/mount_repository.go:87-127 | cancellation, validation, then the retried transaction |
| `MountRepository.MountRepository.Update` | service/store/mount_repository.go:131-152 | cancellation, validation, then the retried transaction |
| `MountRepository.MountRepository.Delete` | service/store/mount_repository.go:157-190 | cancellation, validation, then the retried transaction |
| `MountRepository.MountRepository.List` | service/store/mount_repository.go:225-254 | seek and iterate return exactly the records, each once, or fail on an undecodable one |
| `MountRepository.PrefixContiguous` | service/store/mount_repository.go:237-238 | in key order, the keys with a prefix are contiguous from the seek position |
| `Reconcile.PassIsExact` | service/mount_manager.go:839-999 | under every pattern of faults, however stale the listing, a pass registers exactly the ordinary records it cleared, deletes exactly the tombstones it cleared, and rewrites exactly the records it registers and persists |
| `Reconcile.PassJudgesEach` | service/mount_manager.go:866-999 | a pass deletes a listed tombstone if and only if it is unmanaged, nothing is mounted there or a known client's mount was detached completely, and both removals succeed; it registers a listed ordinary record under the same condition on the mount, whatever becomes of the other records |
| `Reconcile.PassSpares` | service/mount_manager.go:839-864 | a mount that is not listed is left alone, and so is an ordinary record in a pass that does not restore |
| `Reconcile.FreshPass` | service/mount_manager.go:839-999 | over a fresh listing no tombstone flag and no configuration changes |
| `Reconcile.PassKeepsConsistent` | service/mount_manager.go:839-999 | and records and path index stay exact inverses |
| `Reconcile.FaultFreePass` | service/mount_manager.go:839-848 | without faults and from an empty registry, the managed IDs are exactly the ordinary records and no tombstone is left |
| `Reconcile.MountManager.Reconcile` | service/mount_manager.go:839-861 | the loop computes the specified pass |
| `Reconcile.MountManager.ReconcileOne` | service/mount_manager.go:866-999 | one record is left, deleted or registered exactly as `PassJudgesEach` says of a pass, without reference to the decision procedure |
| `DurableProofs.SystemStep` | service/mount_manager.go:335-1106 | every event of the daemon, crashes and restarts included, keeps the invariant on registry, ownership, tombstones and listings |
| `DurableTheorems.FinalForever` | service/mount_manager.go:544-558 | over any number of restarts a final tombstone stays a tombstone until deleted and no child is started for it, as long as no entry overwrites this very record without owning it |
| `DurableTheorems.NoResurrection` | service/store/mount_repository.go:142-152 | no late Update, reconciliation or restart brings a deleted record back; only Create does |
| `DurableTheorems.PersistRevivesIff` | service/mount_manager.go:311-319 | over all tombstones: a persist makes one ordinary if and only if its entry is not unmounting, and does not own the record, or the tombstone was persisted while an Unmount since refused was in flight, or the record was overwritten by another entry |
| `DurableTheorems.PersistBuriesIff` | service/mount_manager.go:311-319 | a persist makes an ordinary record a tombstone if and only if its entry is unmounting, and is an unregistered predecessor, or has an Unmount in flight, or the record was overwritten by another entry |
| `DurableTheorems.AcceptedBuries` | service/mount_manager.go:544-558 | an accepted Unmount buries the record of its ID, which is another's exactly when the entry does not own it |
| `DurableTheorems.RemovalDeletes` | service/mount_manager.go:655-659 | the removal of an entry deletes its own tombstone and nothing else, unless another entry has overwritten the record |
| `DurableTheorems.StepWrites` | service/mount_manager.go:302-333 | each step of an entry writes its current info with its current intent, or deletes, or writes nothing, as its action says, and touches no other record |
| `DurableTheorems.WriteMovesIff` | service/mount_manager.go:311-319 | from an exact index, a write breaks the index if and only if its entry does not own the record, or another entry has overwritten it, and the cleaned paths differ |
| `SplitPersist.RevivedIff` | service/mount_manager.go:311-319 | with snapshot and write apart, over all runs of an owning entry: the tombstone of an accepted Unmount can become ordinary if and only if a snapshot taken before the Unmount is still to be written |
| `SplitPersist.DeletedForever` | service/mount_manager.go:311-319 | and a deleted record stays deleted, whatever is still to be written |
| `SplitPersist.LateWriteRevives` | service/mount_manager.go:311-319 | a run in which such a snapshot is in flight after the Unmount was accepted |
| `BlockedEntry.BlockedForever` | service/mount_manager.go:397-417 | until the process ends an entry whose Create failed and whose ID has no record stays registered and no Unmount of it is accepted |
| `BlockedEntry.BlockedRefuses` | service/mount_manager.go:361-398 | meanwhile neither its ID nor its path can be mounted |
| `BlockedEntry.BlockedExists` | service/mount_manager.go:397-417 | such an entry is reachable |
| `RejectedUnmount.RejectedLeavesOrdinaryIff` | service/mount_manager.go:536-557 | whatever happens between an Unmount request and its refusal, the refusal leaves an ordinary record if and only if it was ordinary and no persist of the entry has succeeded in between |
| `RejectedUnmount.WindowRun` | service/mount_manager.go:536-557 | throughout that window the record is ordinary exactly until the entry persists |
| `OverwriteWitnesses.RevivedTombstoneExists` | service/mount_manager.go:397-417 | a concrete run to a shutdown persist that revives a final tombstone, through an entry whose Create failed |
| `OverwriteWitnesses.RefusedUnmountRevived` | service/mount_manager.go:1330-1332 | a concrete run, through waitForMount's persist, to an owner's persist that revives the tombstone of its refused Unmount |
| `OverwriteWitnesses.RefusedUnmountForgotten` | service/mount_manager.go:548-557 | a concrete run in which a fault-free restart deletes the record of a MOUNTED mount whose Unmount was refused |
| `OverwriteWitnesses.PredecessorBuries` | service/mount_manager.go:1330-1332 | a concrete run to a late persist by waitForMount of an unregistered entry that turns the record of its active successor into a tombstone |
| `OverwriteWitnesses.SuccessorForgotten` | service/mount_manager.go:896-928 | and a fault-free restart then deletes that record |
| `OverwriteWitnesses.UnownedUnmountDeletes` | service/mount_manager.go:397-417 | a concrete run in which the Unmount of an entry whose Create was refused deletes an ordinary record that was not restored |
| `OverwriteWitnesses.MovedRecordExists` | service/mount_manager.go:397-417 | a concrete run after which the index gives a mount's old path to it although its record has another |
| `OverwriteWitnesses.PathSharedExists` | service/mount_manager.go:397-417 | and one after which two records share a cleaned path while the old path stays refused |
| `DurableTheorems.OwnersMeetPathContract` | service/mount_manager.go:302-319 | every Update issued for an entry owning its record keeps the stored path and configuration, unless another entry has overwritten this record |
| `DurableTheorems.ManagedUnique` | service/mount_manager.go:361-398 | managed entries never share an ID; nor a cleaned path, and the index stays exact, as long as no write has changed a record's path |
| `DurableTheorems.ReconcileSparesOrdinary` | service/mount_manager.go:866-928 | reconciling a listed record, however stale, leaves every ordinary record as it is; it deletes the record if and only if it was listed as a tombstone, is unmanaged, nothing is mounted there or a known client's mount was detached completely, and both removals succeed, and what it deletes is a tombstone; it registers a listed ordinary record if and only if it is unmanaged and its mount is gone; unless another entry has overwritten that very record |
| `DurableTheorems.ForgetAgrees` | service/mount_manager.go:866-928 | the daemon's reconciliation step is the sequential reconciler's when nothing is remounted |
| `DurableTheorems.RemountAgrees` | service/mount_manager.go:935-999 | and when a record is remounted, except that the entry's first persist is still to come |
| `DurableTheorems.StartIsExact` | service/mount_manager.go:839-999 | from any store, a fault-free restoring start manages exactly the ordinary records with their configurations and leaves no tombstone, whatever the restored entries do meanwhile |
| `RestartTheorems.DrainRun` | service/mount_manager.go:1010-1106 | however the drained daemon's goroutines and shutdown steps interleave, a record that no other entry overwrites is ordinary at the end if and only if it was, or its owned and active mount persists successfully; its configuration is kept |
| `RestartTheorems.RestartIsIdentity` | service/mount_manager.go:1010-1106 | after shutdown, crash and fault-free restart a mount is managed, with its ID and configuration, if and only if its record was ordinary, or it was owned, not being unmounted, and persisted successfully during the shutdown |
| `ClientTheorems.InvStep` | client/client.go:103-361 | every event keeps the invariant on connections, flag ownership, lock and request counts (`ClientReconnect` says what the steps achieve) |
| `ClientTheorems.EachConnectionOnce` | client/client.go:134-165 | every created connection is exactly one of closed (once), installed, or held by one thread; one is installed exactly when connected |
| `ClientTheorems.NothingLeaks` | client/client.go:249-277 | after Disconnect, once all threads are done and without a new Connect, every connection was closed exactly once |
| `ClientTheorems.DisconnectedRun` | client/client.go:141-152 | no reconnect path reconnects a disconnected client |
| `ClientTheorems.RequestsAtMostTwice` | client/client.go:304-361 | one call runs its request at most twice |
| `ClientReconnect.LoopReconnects` | client/client.go:121-188 | from every reachable state of a connected client, a searching loop whose context lives can by its own steps alone, once the lock is free, install a connection never installed or closed before, close the old one and return, with the flag down unless a newer sequence has begun |
| `ClientReconnect.LoopInstallsIff` | client/client.go:146-163 | a loop's ready connection is installed if and only if the client is connected and the context lives; otherwise it is discarded and nothing changes |
| `ClientReconnect.CancelledNeverInstalls` | client/client.go:134-152 | a loop whose context was cancelled never installs a connection, at whatever later moment it acts |
| `ClientReconnect.CallInstallsIff` | client/client.go:335-352 | a caller's ready connection is installed if and only if the client is connected |
| `ClientReconnect.CallerReconnects` | client/client.go:304-346 | from every reachable state of a connected client, a caller that reconnects, or finds the flag down, can by its own steps alone install a new connection, close the old one, lower the flag and return after a second run of its request |
| `ClientReconnect.RunsOnReturn` | client/client.go:335-361 | whatever else happens, a caller that has installed its connection returns after exactly two runs of its request, and one whose attempt failed after exactly one |
| `ClientReconnect.FailureIsMended` | client/client.go:103-115 | a caller whose attempt failed while the client is connected hands over to a loop with the newest sequence and a living context, which can then reconnect on its own and lower the flag |
| `ClientRecovery.NeverStuck` | client/client.go:103-129 | a raised reconnecting flag always has an owner, and from every reachable state the threads already begun can clear it even if everything outside fails |
| `ClientRecovery.OwnerClearsUnlessAnotherRound` | client/client.go:121-188 | whatever the outside answers, each step of an owner clears the flag or leaves an owner with less to do, at most seventeen steps, unless a loop whose context lives starts another round |
| `ClientExclusion.OneReconnectAtATime` | client/client.go:265-277 | on every run two threads can come to reconnect at once if and only if some Disconnect has lowered the flag under a thread that is reconnecting; without one no state of the run has two |
| `ClientExclusion.CollidesIff` | client/client.go:265-277 | an event makes two reconnecting threads reachable, without a further overlap, if and only if it is such a Disconnect |
| `ClientRecovery.UndisturbedAtFirst` | client/client.go:50-72 | the initial state meets the hypotheses, so this holds of every run of a new client |
| `ClientRecovery.StartCancelsNoLiveLoop` | client/client.go:103-115 | as long as no Disconnect overlaps a reconnect, starting a background loop cancels none that is still running |
| `ClientRecovery.NothingCancelled` | client/client.go:103-115 | without Disconnect no start of a loop even finds an earlier cancel function |
| `ClientOverlap.OverlapExists` | client/client.go:107-111 | with Disconnect, a reachable state in which one caller's loop was cancelled by another caller's |
| `EventTheorems.InvStep` | service/mount_manager.go:713-787 | every step of mounts, publishers and subscriber keeps the coverage invariant |
| `EventTheorems.GapFree` | service/mount_manager.go:713-787 | unless an event was dropped, every published transition or removal of a mount that the filter names, or of any mount if it is empty, that was listed, came later, or was published after the listing is shown by the initial snapshot or by an event taken at or after it |
| `EventTheorems.SubscribeReturnsIff` | service/mount_manager.go:724-736 | subscribing can return if and only if at most 64 listed mounts are named by the filter, or all are if it is empty |
| `EventTheorems.StuckForever` | service/mount_manager.go:729-735 | once it blocks it stays blocked and no event is published again |
| `EventTheorems.UnfilteredMissesNothing` | service/mount_manager.go:749-755 | a subscriber that names no mount misses no such transition of any |
| `EventDelivery.OnlyWantedDelivered` | service/mount_manager.go:717-773 | everything delivered is of an existing mount that the request names, unless it names none but empty IDs, with its own ID and a version it has had |
| `EventDelivery.ListsTheManaged` | service/mount_manager.go:775-788 | what is listed is exactly the managed mounts, each once |
| `EventDelivery.SnapshotsFirst` | service/mount_manager.go:724-736 | the stream begins with one snapshot of each wanted listed mount, in order |
| `EventDelivery.NothingElseFirst` | service/mount_manager.go:724-736 | and nothing else is in the channel when subscribing returns |
| `EventDelivery.AnnouncedIsDeliveredIff` | service/mount_manager.go:757-773 | an announced change whose goroutine is not held up is delivered with the version it made if and only if the mount is wanted and fewer than 64 events wait, and dropped if it is wanted and they do not |
| `EventDelivery.RemovalIsDeliveredIff` | service/mount_manager.go:757-773 | the like for a removal, with the snapshot taken before it |
| `Redaction.RedactHidesAll` | service/logstore/logstore.go:87-90 | no secret is left in any line if none fits over the mark at any offset |
| `Redaction.RedactionTheorem` | service/logstore/logstore.go:87-90 | for non-empty bracket-free secrets, every line is safe if and only if no secret is part of REDACTED |
| `Redaction.MarkLeaks` | service/logstore/logstore.go:87-90 | the line that is the mark itself shows every secret that is part of it |
| `Redaction.OneSecretTheorem` | service/logstore/logstore.go:87-90 | for any one non-empty secret, brackets or not: every line is safe if and only if the secret neither begins inside a mark nor ends inside one after text that is kept |
| `Redaction.OverlapMayBeSafe` | service/logstore/logstore.go:87-90 | fitting over the mark is not enough to leak: two opening brackets fit, and no line shows them |
| `Redaction.OnlySecretsReplaced` | service/logstore/logstore.go:87-90 | every line falls into pieces around the occurrences of a secret, found from the left; exactly these are replaced and the pieces are kept |
| `Redaction.NothingToRedact` | service/logstore/logstore.go:87-90 | a line without secrets is logged as it is |
| `Text.LinesConcat` | service/logstore/logstore.go:112-124 | cutting a text into lines in two pieces gives the lines of the whole |
| `Text.LinesComplete` | service/logstore/logstore.go:112-124 | the lines and the rest make up the text again |
| `Text.LinesAreSplit` | service/logstore/logstore.go:112-124 | the lines are the newline split of the text |
| `LogLines.ChunkingIndependence` | service/logstore/logstore.go:112-132 | for every sequence of writes to both streams followed by Close, each stream's lines are those of its whole text |
| `LogStore.MountLog.constructor` | service/logstore/logstore.go:51-70 | opening a log keeps what the file holds and exactly the non-empty secrets |
| `LogStore.MountLog.WriteLine` | service/logstore/logstore.go:87-101 | one redacted, stamped record is appended |
| `LogStore.LineWriter.Write` | service/logstore/logstore.go:112-124 | the complete lines are written in order, the rest stays in the buffer |
| `LogStore.LineWriter.Flush` | service/logstore/logstore.go:126-132 | a non-empty rest is written and the buffer emptied |
| `LogStore.Close` | service/logstore/logstore.go:81-85 | both rests are written, standard output's first |
| `LogStore.LogOutput` | service/logstore/logstore.go:55-132 | a child's whole output, however delivered, is logged as the specification says |
| `LogStore.LogHidesSecrets` | service/logstore/logstore.go:55-132 | no safe secret is left in any record, however the output was cut |
| `LogQuery.Query` | service/logstore/query.go:25-56 | missing and unreadable files, and the selected window otherwise |
| `LogQuery.Cut` | service/logstore/query.go:49-54 | the first limit of the last tail records, with the exact number of them; a bound that is not positive does not apply |
| `LogQuery.QueryRoundTrip` | service/logstore/query.go:34-47 | reading a written log, even with a torn last line, selects exactly the written records later than since |
| `LogQuery.UnrestrictedQuery` | service/logstore/query.go:25-56 | a query without bounds returns exactly what was written |
| `LogQuery.AnswerIsContiguous` | service/logstore/query.go:43-54 | with a clock that does not go back, every answer is a contiguous stretch of the written records whose two ends are given: those later than since, of them the last tail, of these the first limit |
| `Backoff.ClosedFormIsStepwise` | service/mount_manager.go:249-252 | the closed form is multiply-and-cap iterated |
| `Backoff.BaseMonotone` | service/mount_manager.go:245-252 | the delay never shrinks with the attempt number |
| `Backoff.RetryDelayBounds` | service/mount_manager.go:233-259 | with the defaults of one second, thirty seconds, factor two and no jitter written out: the delay is at least min(initial, cap) and at most cap times (1 + jitter) |
| `Backoff.FirstRetryDelay` | service/mount_manager.go:233-253 | the first delay is the initial one, cut off at the cap; an attempt below one counts as one |
| `Backoff.NextRetryDelay` | service/mount_manager.go:249-253 | each further one is the previous one times the multiplier, cut off at the cap |
| `Backoff.RetryDelayJitter` | service/mount_manager.go:255-258 | jitter adds its random share of the delay |
| `Backoff.RetryDelayMonotone` | service/mount_manager.go:233-253 | without jitter the delay never shrinks from one attempt to a later one |
| `Backoff.TotalRetryDelayBound` | service/mount_manager.go:233-259 | n such waits take at most n times the jittered cap |
| `Backoff.ClientInterval` | client/client.go:133-185 | the client's doubling loop is the same backoff with factor two, between one second and one minute |
| `MountInfo.UnescapeEscape` | service/mount_manager.go:1842-1850 | unescaping undoes the kernel's escaping of every path |
| `MountInfo.IsMountPoint` | service/mount_manager.go:1824-1840 | true exactly if some line of the text names the cleaned path |
| `MountInfo.ListedIsSeen` | service/mount_manager.go:1824-1840 | on every printed table, exactly the paths that are seen: each mount point up to bare white space, or the second part of a root that has such white space |
| `MountInfo.IsMountPointCorrect` | service/mount_manager.go:1824-1840 | for mount points and roots without bare white space, exactly the mount points up to cleaning |
| `MountInfo.AnswersRightlyIff` | service/mount_manager.go:1829-1838 | for every table of clean mount points all answers are right if and only if no mount point has bare white space and every root with such white space is harmless |
| `MountInfo.AnswersRightlyByPaths` | service/mount_manager.go:1829-1838 | if no root falls apart, if and only if no mount point has bare white space |
| `MountInfo.ShiftedRootMisleads` | service/mount_manager.go:1829-1838 | a bind mount of a directory with a no-break space makes an unrelated path look mounted |

## Left out

- Writes of best-effort persists: snapshot and write are one step wherever several entries, crashes or restarts are
  concerned. `SplitPersist` takes them apart, for one entry that owns its record.
- The operation lock is released in the step that records a failure, an unmount failure or the end of a shutdown, while
  the code releases it after the persist that follows. The invariants hold for more runs by that; the concrete runs
  use only persists that the code makes without the lock.
- `reconcileRecord` is one step; its managed check, probe and delete are not under one lock in the code.
- Remounting registers the entry with the operation already held, since startup is over before requests are served.
- Cancelling retry timers: they always fire in the model, from the moment the failure is recorded. After a shutdown request
  the attempts that `NoFurtherAttemptIff` finds possible need a timer that was stored too late to be cancelled
  (service/mount_manager.go:1237-1240).
- The deduplication of IDs and paths in `Mount` is one step with the registration; the limit on concurrent mounts, the
  allowed roots, path canonicalisation and option checks are not modelled.
- Of an entry's info only ID, configuration, state, attempt and whether it was ever mounted; not the last error, the
  times, the process ID or the data directory. Cache preservation after a lazy DAVFS detach is not stated.
- DurableTheorems.FinalForever: does not cover a record that an entry not owning it overwrites, because the code then breaks it; `PersistRevivesIff` is the exact condition.
- ClientRecovery.NeverStuck: states that the flag can always be cleared, not when, because the scheduler and the network are not modelled; `OwnerClearsUnlessAnotherRound` bounds the owner's own steps.
- RestartTheorems.RestartIsIdentity: assumes that Mount and Unmount requests have drained, because shutdown stops the listeners first.
- Client sequence numbers are unbounded; the 64-bit counter does not wrap. The request itself is an arbitrary result.
- Events: one subscriber, with `include_current`; cancelling a subscription is not modelled.
- LogStore.MountLog.WriteLine: does not model encoding or rotation; the file is the sequence of its records, and JSON encoding is an invertible function without newlines, which for a message that is not valid UTF-8 the code's encoder is not.
- Backoff: exact real arithmetic; rounding to float64 and truncation to whole nanoseconds are not modelled.
- A Go string is a sequence of characters, one per byte, and the path encoding is stated for characters below 256; for
  `MountInfo` alone, where white space is a property of Unicode characters, it is one per character.
- Locks that only protect reads, logging, metrics, gRPC and REST handlers, the web interface, the command line, configuration
  parsing, process and FUSE control, BadgerDB internals, encryption, record codecs and schema migration.
