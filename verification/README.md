# Verification of the SMB bridge's engine

The bridge keeps a local cache that shop-floor machines read over SMB in step with a file server. This
project models the parts of it that decide, remember and recover, and proves what they promise over
whole runs. `dafny verify dfyconfig.toml` checks everything.

## What is modelled

**The three-way sync engine.** `DiffEngine` is the decision table as pure functions. `Orchestrator` cuts
a path's reconcile at its awaits: functions give each segment's effect on one path, and class
`SyncOrchestrator`, which holds the shared store, breaker and quarantine set, is proved to be those
segments. `CircuitBreaker` is the breaker as a function of its history. `SyncRuns` lets reconciles
interleave at every await, port calls fail with or without their effect, the process die anywhere, and
people edit both sides and lift quarantines in between. `SyncCycle` plays one cycle's reconciles under arbitrary schedules.

**Locks.** `LockTable` is a state machine over lock rows, byte-range holders and server-file modes, with
the process able to die between any two steps. Class `LockManager` carries the operations; a ghost
trace shows that each is a run of that machine. `MachineLocks` is the source that follows audit events
and Samba's status.

**Structures that refine their history.** `EchoGuard`, `RateLimiter` (over `SlidingWindow`),
`TokenBucket`, `AuditIngest`, `Failover`, `FailoverService`, `FileIndex`, `ServerScanner`, `HashCache`
with its interleavings in `HashRuns`, and `ConfigTree`. Each class keeps a ghost history; its invariant
says that its fields are a function of it. `InsertionMap` is the insertion-ordered map two of them use.

## Assumptions

- Clocks never go back. Times are parameters.
- A resolved push, pull or delete makes the target side equal to the source side; a failed one may or may
  not have done so. A resolved capture stores the victim's content; a failed one may or may not.
- A stat reports the side as it is; only an offline server may read as empty.
- People edit a path only between its reconciles.
- Either every `FileSide` carries a hash or none does (the `hashed` parameter). `MixedHashesBreakAgreement`
  shows why.
- Nobody but the lock manager changes the modes of the server files it locks, or creates or deletes
  them while their modes are tracked; and the process does not die between a chmod and its record.
- Every write gives its path an identity it never had before (`HashRuns`).

## Where the claim and the code differ

- A cache hit can be wrong (`RacedHitCanBeWrong`). It is right exactly when the gap between its `stat` and
  its lookup is closed or the read that filled the entry returned what has the right digest
  (`HitIsRightIff`), and right whatever raced reads return exactly when no write raced that read
  (`HitAlwaysRightIffFillClean`).
- A file under an active lock can become writable: a lock that found the file read-only for an older,
  unpaid debt records nothing, and a sweep then pays that debt (`SweepCanUnprotect`). It stays read-only
  exactly when the lock's own row records the debt or the file was read-only before any lock
  (`ProtectionIsOwnDebt`).
- A queue of size zero counts a drop for an event it keeps (`EveryEventIsAccountedFor`).
- Chunk independence needs every line with content to fit the 64 KiB cap (`ChunkIndependence`).
- The breaker law needs a threshold of at least one (`ClosedIffFewFailures`), the interval law a floor not
  above the ceiling (`IntervalLaw`), and the mirror law fails exactly on ties (`MirroredExceptForTies`).
- `hasCaseCollision` is documented as "another indexed path"; it means that exactly for an indexed path or
  one whose bucket does not have exactly one member (`CollisionIsOtherSpellingIff`), so with only "A"
  indexed it misses "a" (`UnindexedSpellingIsMissed`).
- A comment on failed scans says every path keeps its old stamp; the code has stamped exactly what the walk
  had listed (`Fail`). Nothing is removed on its strength. A listener that throws ends a scan in the same
  branch after removals were made, and the rest of the report is never told (`FinishInterrupted`).
- Above the row cap a reconcile can leave a stale machine lock behind for good (`OldestIsNeverReached`): it
  matches exactly when every lock its listing left out is on an open path (`PassMatchesIff`,
  `ReconciledExactly`).

## Model

| member | source | states |
|---|---|---|
| `DiffEngine.Decide` | src/backend/sync/diff-engine.ts:343-395 | An exclude pattern decides first, then a case collision, then a present side above the size limit, each exactly; a version is captured exactly when the action destroys content, and it is the victim side's; every action has something to act on; deletions follow a side that is gone; the table's last arm is unreachable |
| `DiffEngine.OverridesDecideFirst` | src/backend/sync/diff-engine.ts:356-386 | EXCLUDE, ERROR and SKIP are answered exactly for those paths |
| `DiffEngine.AgreeTransitive` | src/backend/sync/diff-engine.ts:181-186 | Content comparison is transitive when either every hash is known or none is |
| `DiffEngine.MixedHashesBreakAgreement` | src/backend/sync/diff-engine.ts:181-186 | With only some hashes known it is not: two different files can both look like the base, and nothing is done |
| `DiffEngine.DecisionIsThreeWayMerge` | src/backend/sync/diff-engine.ts:398-547 | Carrying out the verdict leaves both sides with the three-way merge of local, remote and base, defined without the table |
| `DiffEngine.NothingToTransferIffAgreed` | src/backend/sync/diff-engine.ts:398-547 | Absent path overrides, NOOP or CONVERGE is returned exactly when the sides agree, and CONVERGE exactly when the agreed content is not the base |
| `DiffEngine.AvailabilityOnlyDefers` | src/backend/sync/diff-engine.ts:653-694 | Locks, outages and read-only mode never turn a decision into another one: the free decision stands, or it is deferred exactly when it is forbidden |
| `DiffEngine.MirroredExceptForTies` | src/backend/sync/diff-engine.ts:575-643 | Swapping the sides and the two fixed conflict modes mirrors the action if and only if the two times do not tie |
| `CircuitBreaker.HistoryLawHolds` | src/backend/sync/orchestrator.ts:533-580 | State, counter, opening time and probe are functions of the history of failures, successes, cycle entries and gate passes |
| `CircuitBreaker.ClosedIffFewFailures` | src/backend/sync/orchestrator.ts:549-569 | Closed exactly while fewer than the threshold of failures happened since the last success or resync, for every history, if and only if the threshold is at least one |
| `CircuitBreaker.CycleStartFollowsHistory` | src/backend/sync/orchestrator.ts:533-547 | A cycle may start exactly when too few failures happened since the last success or resync, or the last failure is a cooldown ago |
| `CircuitBreaker.GateFollowsHistory` | src/backend/sync/orchestrator.ts:348-358 | The gate lets everybody through while closed, and after cooling down exactly the first reconcile |
| `CircuitBreaker.NobodyPassesAnOpenBreaker` | src/backend/sync/orchestrator.ts:348-350 | No reconcile gets past the gate while the history says open |
| `CircuitBreaker.ProbeStaysSpent` | src/backend/sync/orchestrator.ts:351-358 | A spent probe stays spent for as long as the breaker is half-open |
| `CircuitBreaker.OneProbePerEpisode` | src/backend/sync/orchestrator.ts:351-358 | At most one reconcile passes in one half-open episode |
| `Orchestrator.SyncOrchestrator.TryEnterBreaker` | src/backend/sync/orchestrator.ts:533-547 | Moves the breaker as its state machine says; the cycle may go on unless the breaker is open and has not cooled down |
| `Orchestrator.SyncOrchestrator.OnSuccess` | src/backend/sync/orchestrator.ts:549-556 | Closes the breaker and clears the count |
| `Orchestrator.SyncOrchestrator.OpenBreaker` | src/backend/sync/orchestrator.ts:571-580 | Opens the breaker as of now |
| `Orchestrator.SyncOrchestrator.OnFailure` | src/backend/sync/orchestrator.ts:558-569 | Counts a failure; reopens after a failed probe, opens at the threshold |
| `Orchestrator.SyncOrchestrator.FullResync` | src/backend/sync/orchestrator.ts:249-257 | Forgets every record and every quarantine and closes the breaker, leaving its probe alone |
| `Orchestrator.SyncOrchestrator.Begin` | src/backend/sync/orchestrator.ts:340-367 | Goes on to the stats exactly when the breaker lets it through, the path is not quarantined and its stored retry time has come; the machine's begin step behind the breaker gate |
| `Orchestrator.SyncOrchestrator.StatsArrived` | src/backend/sync/orchestrator.ts:382-401 | The segment after the two stats is the machine's decide step, and touches no other path |
| `Orchestrator.SyncOrchestrator.VersionCaptured` | src/backend/sync/orchestrator.ts:421-424 | The transfer starts only from the resolved capture |
| `Orchestrator.SyncOrchestrator.TransferDone` | src/backend/sync/orchestrator.ts:403-408 | The segment after the transfer commits the base, quarantines the path exactly when the guard trips, and tells the breaker |
| `Orchestrator.SyncOrchestrator.RecordFailure` | src/backend/sync/orchestrator.ts:502-528 | A rejected port call keeps the base, counts one failure more and sets the retry time by the number of failures before it |
| `Orchestrator.RetryDelayIsBackoff` | src/backend/sync/orchestrator.ts:508-509 | Each failure has its own configured delay, from the last one on it stays, and with none configured there is none |
| `Orchestrator.BackoffNeverShrinks` | src/backend/sync/orchestrator.ts:508-509 | Configured delays that never shrink never shrink from one failure to the next, and every delay is a configured one |
| `Orchestrator.SyncOrchestrator.CommitSuccess` | src/backend/sync/orchestrator.ts:472-488 | The stored record becomes the surviving side, or is dropped after a deletion |
| `Orchestrator.SyncOrchestrator.CommitInert` | src/backend/sync/orchestrator.ts:491-500 | A verdict without a transfer keeps the base and the retry count |
| `Orchestrator.WhatTheBreakerHears` | src/backend/sync/orchestrator.ts:369-412 | The breaker hears of a reconcile that failed or committed, and of no other segment |
| `Orchestrator.FailedCallMayHaveLanded` | src/backend/sync/orchestrator.ts:421-457 | A failed capture or transfer that had its effect leaves the sides and versions a resolved one would have, and one that had none leaves them alone |
| `SyncRuns.UnreadableServerIsInert` | src/backend/sync/diff-engine.ts:332-336 | Read as empty and reported offline, the server yields only verdicts that are not applied |
| `SyncRuns.CycleQueuesListed` | src/backend/sync/orchestrator.ts:278-323 | A cycle runs unless the breaker is open and has not cooled down, and queues exactly the listed paths |
| `SyncRuns.StartIsGuarded` | src/backend/sync/orchestrator.ts:340-367 | A queued path goes on to its stats exactly when it is let through, not quarantined and due |
| `SyncRuns.AvailabilityIsRespected` | src/backend/sync/diff-engine.ts:653-694 | No reconcile carries out a pull or local deletion on a locked path, a write to the server in read-only mode, or any of them but a pull while the server is offline |
| `SyncRuns.AvailableIsDecided` | src/backend/sync/orchestrator.ts:382-412 | Online, a reconcile ends at an inert verdict and otherwise carries out exactly the decided one, capturing first exactly when it names a version |
| `SyncRuns.QuarantinedIsLeftAlone` | src/backend/sync/orchestrator.ts:365-367 | Over a whole run a quarantined path is left alone by every cycle until it is released, a resync is asked for or the process restarts |
| `SyncRuns.BackoffIsLeftAlone` | src/backend/sync/orchestrator.ts:362-364 | Over a whole run, restarts included, a path is left alone by every cycle that starts before its stored retry time |
| `SyncRuns.FailureIsBackedOff` | src/backend/sync/orchestrator.ts:502-528 | After any failed port call the path is left alone until the backoff for that many failures is over |
| `SyncRuns.RuledOutIsLeftAlone` | src/backend/sync/diff-engine.ts:356-386 | A path that every look finds excluded, colliding or above the size limit is never captured or transferred |
| `SyncRuns.RestartForgetsMemory` | src/backend/sync/orchestrator.ts:185-200 | A restart lifts every quarantine and ends every reconcile, and keeps every record |
| `SyncRuns.ResyncForgetsBases` | src/backend/sync/orchestrator.ts:249-257 | A resync forgets every record and quarantine, and closes the breaker |
| `SyncRuns.ResumeKeepsPathSound` | src/backend/sync/orchestrator.ts:340-412 | Every segment keeps its path's invariant: the sides it decided on are still there and what it destroys is stored first |
| `SyncRuns.SoundIsInvariant` | src/backend/sync/orchestrator.ts:278-412 | Every step of a run keeps that invariant on every path |
| `SyncRuns.RunsAreSound` | src/backend/sync/orchestrator.ts:278-412 | So it holds after any number of steps of any run |
| `SyncRuns.BridgeNeverLosesContent` | src/backend/sync/orchestrator.ts:421-457 | No step of the bridge, and no death of its process, makes content unrecoverable from the two sides and the version store |
| `SyncRuns.OnlyOutsideEditsLoseContent` | src/backend/sync/orchestrator.ts:421-457 | Over a whole run, content stops being recoverable only through an outside edit of that very content |
| `SyncRuns.RemovedContentSurvives` | src/backend/sync/orchestrator.ts:421-457 | Content the bridge removes from a side is in the version store or on the other side |
| `SyncRuns.CommitMeansAgreement` | src/backend/sync/orchestrator.ts:472-488 | When a reconcile commits, both sides equal the new base, or are both gone with the record |
| `SyncRuns.AgreementIsStable` | src/backend/sync/orchestrator.ts:278-412 | Sides that agree are left alone by every later cycle, failure, outage and crash until somebody edits the path |
| `SyncRuns.CrashAfterTransferIsHarmless` | src/backend/sync/orchestrator.ts:403-408 | Dying between a transfer that took effect and its commit never leads to a second transfer or a deletion |
| `SyncRuns.DecisionAfterCrash` | src/backend/sync/diff-engine.ts:398-547 | The next decision after such a crash is CONVERGE or NOOP, whatever base the store holds |
| `SyncRuns.NothingAppliedAgain` | src/backend/sync/orchestrator.ts:340-412 | Once a path's sides agree on its base, no later cycle captures, transfers or rewrites anything for it, under any failure, outage or crash, until it is edited or a resync forgets its base |
| `SyncRuns.OutageLeavesNoTrace` | src/backend/sync/diff-engine.ts:332-336 | Through any number of offline cycles the sides hold exactly what people put there and the stored base is unchanged |
| `SyncCycle.EveryTurnShortensTheRest` | src/backend/sync/orchestrator.ts:340-412 | A reconcile ends after at most four turns |
| `SyncCycle.FinishedIsSolo` | src/backend/sync/orchestrator.ts:340-412 | A reconcile that has had its turns is where it would be on its own |
| `SyncCycle.FailureCountStaysLow` | src/backend/sync/orchestrator.ts:558-569 | With too few failing paths the count never reaches the threshold, whatever the order |
| `SyncCycle.TurnsAreIndependent` | src/backend/sync/orchestrator.ts:315-337 | At every moment of every schedule each path is exactly where its own turns have brought it |
| `SyncCycle.CycleIsConfluent` | src/backend/sync/orchestrator.ts:315-337 | Every interleaving that finishes leaves each path as its own reconcile alone would have, with the breaker closed |
| `SyncCycle.UnhinderedPathConverges` | src/backend/sync/orchestrator.ts:340-412 | One clean reconcile leaves both sides with the three-way merge and the base equal to it |
| `SyncCycle.CleanCycleConverges` | src/backend/sync/orchestrator.ts:278-337 | One failure-free online cycle from any closed breaker, in any interleaving, leaves both sides of every path agreed on that merge with nothing left to apply |
| `SyncCycle.ConvergedForGood` | src/backend/sync/orchestrator.ts:278-337 | After such a cycle a path is never capturing or transferring again and its sides, versions and base stay, until it is edited or a resync forgets its base |
| `SyncCycle.ConvergedThroughResyncs` | src/backend/sync/orchestrator.ts:249-257 | With resyncs as well the path stays settled and its sides and versions stay; only the base may be written again |
| `LockTable.Protected` | src/backend/locking/read-only-guard.ts:72-92 | Removing the write bits makes a mode read-only and changes no other bit |
| `LockTable.Restored` | src/backend/locking/read-only-guard.ts:105-119 | Giving write permission back makes a mode writable and changes nothing but write bits |
| `LockTable.ReadOnlyMeansNobodyWrites` | src/backend/locking/read-only-guard.ts:80-83 | Read-only means that none of user, group and other may write |
| `LockTable.ProtectedBitByBit` | src/backend/locking/read-only-guard.ts:85-91 | Removing write permission clears those three bits and no other |
| `LockTable.RestoredBitByBit` | src/backend/locking/read-only-guard.ts:113-118 | Giving it back sets the bits of user and group and no other |
| `LockTable.LocksStayUnique` | src/backend/locking/lock-manager.ts:203-211 | No step puts two active rows on one share and path |
| `LockTable.HoldersStayActive` | src/backend/locking/lock-manager.ts:291-302 | No step leaves a holder whose row is not an active byte-range row |
| `LockTable.TakingIncursDebt` | src/backend/locking/lock-manager.ts:466-484 | Taking write permission records a new debt and only that one |
| `LockTable.GivingBackSettlesDebt` | src/backend/locking/lock-manager.ts:494-518 | Giving it back settles exactly that debt |
| `LockTable.StepKeepsSound` | src/backend/locking/lock-manager.ts:186-329 | Every step keeps the table, the holders and the file modes in agreement |
| `LockTable.RunsAreSound` | src/backend/locking/lock-manager.ts:186-329 | So does every run: one active lock per path, holders only for active rows, read-only files only where a row records it |
| `LockTable.DeathAnywhere` | src/backend/locking/byte-range.ts:168-193 | The same after the process dies behind any step, with no holder left |
| `LockTable.ReadOnlyDebt` | src/backend/locking/lock-manager.ts:466-518 | A file is read-only exactly when it was so before any lock or some row records the debt, and a file read-only beforehand keeps its mode |
| `LockTable.OwnDebtLasts` | src/backend/locking/lock-manager.ts:494-518 | A row that took the write bits records it for as long as it is active |
| `LockTable.UnprotectedByOlderDebt` | src/backend/locking/lock-manager.ts:529-541 | A protected file opens only when a released row's debt is settled, never an active lock's |
| `LockTable.SweepCanUnprotect` | src/backend/locking/lock-manager.ts:529-541 | That can open a file under an active, enforced lock: a run that does it |
| `LockTable.SecuredStaysClosed` | src/backend/locking/lock-manager.ts:494-518 | While a lock is active whose row records the debt, or whose file was read-only before any lock, no run opens the file |
| `LockTable.UnsecuredOpens` | src/backend/locking/lock-manager.ts:529-541 | Otherwise ending the row that owes the file and paying its debt opens it while the lock is active |
| `LockTable.ProtectionIsOwnDebt` | src/backend/locking/lock-manager.ts:466-541 | A read-only file of an active lock stays read-only in every continuation that keeps the lock active if and only if the lock's row records the debt or the file was read-only before any lock |
| `LockManager.ActiveRow` | src/backend/locking/lock-manager.ts:331-337 | Finds the active row of a path, or shows there is none |
| `LockManager.LockManager.Agreement` | src/backend/locking/lock-manager.ts:186-329 | In every state of the manager the table, the holders and the files agree |
| `LockManager.LockManager.StartHolder` | src/backend/locking/byte-range.ts:100-157 | A holder is started once per row and reported honestly |
| `LockManager.LockManager.TakeWritePermission` | src/backend/locking/lock-manager.ts:466-484 | Where the mode can be changed nobody can write the file afterwards, and the row records it if somebody could before; otherwise nothing changes |
| `LockManager.LockManager.GiveWritePermissionBack` | src/backend/locking/lock-manager.ts:494-518 | Exactly a recorded, mounted and changeable debt is paid: user and group may write, no other bit changes and the record is gone; otherwise the record stays |
| `LockManager.LockManager.ProjectRow` | src/backend/locking/lock-manager.ts:384-452 | What a new row ends up claiming, holding and owing, for each way the outside world can fail |
| `LockManager.LockManager.Acquire` | src/backend/locking/lock-manager.ts:186-264 | Refused when locking is off or the path is held; otherwise one new row with its expiry; an enforced byte-range lock has its holder, nobody can write its file, and the row records the debt exactly if somebody could |
| `LockManager.ExpiryRule` | src/backend/locking/lock-manager.ts:193-199 | The configured TTL is for machine locks only; zero and none mean held until released |
| `LockManager.LockManager.Finish` | src/backend/locking/lock-manager.ts:291-329 | Ends one row and its holder, pays its debt exactly when it can, and changes no other row or file |
| `LockManager.LockManager.ReleaseLock` | src/backend/locking/lock-manager.ts:267-279 | Only the number of an active lock releases anything, and then one row, its holder and the one mode its debt covers |
| `LockManager.LockManager.ExpireStale` | src/backend/locking/lock-manager.ts:282-289 | Exactly the active locks at or past their expiry end, exactly their holders go, and the file modes are those that paying their debts leaves |
| `LockManager.LockManager.SweepReadOnlyLeftovers` | src/backend/locking/lock-manager.ts:529-549 | Pays every released row's debt that can be paid, counts exactly those, touches no active row, and leaves the file modes those payments leave |
| `LockManager.SweepPaysReleased` | src/backend/locking/lock-manager.ts:494-541 | A row's debt survives a sweep unless the row is released, its mount is up and its file's mode can be changed |
| `LockManager.SweptFilesAreWritable` | src/backend/locking/lock-manager.ts:494-541 | After a sweep user and group can write the file of every such debt, no other bit has changed, and every other file is as it was |
| `LockManager.SweepLeavesOnlyActiveDebts` | src/backend/locking/lock-manager.ts:529-549 | With every share mounted and every mode changeable only active rows still record a debt afterwards |
| `LockManager.LockManager.OnHolderExit` | src/backend/locking/lock-manager.ts:558-564 | A lost holder leaves its row active and no longer claiming a projection |
| `LockManager.LockManager.RestoreServerLocks` | src/backend/locking/lock-manager.ts:574-609 | Restarts the holders of exactly the active byte-range rows that are mounted, counts both outcomes, keeps every recorded debt, and protects exactly the files of the restarted rows |
| `LockManager.RestoredFilesAreProtected` | src/backend/locking/lock-manager.ts:574-609 | Afterwards nobody can write the file of a row whose holder restarted and whose file's mode can be changed, and a row records the debt if somebody could before |
| `LockManager.RestoredClaimsAreExact` | src/backend/locking/lock-manager.ts:574-609 | Afterwards a byte-range row claims to be enforced exactly when its holder runs |
| `LockManager.LockManager.Shutdown` | src/backend/locking/lock-manager.ts:612-614 | Drops every holder and no lock |
| `MachineLocks.PlainlyReadOnlySpelled` | src/backend/locking/machine-lock-source.ts:154-156 | Only the six letters of "rdonly", each in either case, mean a read-only open |
| `MachineLocks.OpenMapIsWriteOpen` | src/backend/locking/machine-lock-source.ts:145-158 | The map of open files has exactly the share's paths that some process has open for writing, each with the machine of the last such process |
| `MachineLocks.IpByPidIsLast` | src/backend/locking/machine-lock-source.ts:133-139 | The last session carrying both a process and an address decides where the process runs |
| `MachineLocks.MatchesMeans` | src/backend/locking/machine-lock-source.ts:160-173 | The reconciled state means: machine locks are exactly the open paths no other origin holds |
| `MachineLocks.MatchesTheStatus` | src/backend/locking/machine-lock-source.ts:144-173 | Against a status: machine locks are exactly the paths some process writes to and no other origin holds |
| `MachineLocks.TakenForItsMachine` | src/backend/locking/machine-lock-source.ts:133-166 | A lock taken in a pass carries the machine of the last process that writes to its path |
| `MachineLocks.OnlyTheHolderLetsGo` | src/backend/locking/machine-lock-source.ts:109-121 | A close, delete or rename releases exactly the active machine lock on a path it names, a rename also on its non-empty new name, and not that of another known machine |
| `MachineLocks.MachineLockSource.TryAcquire` | src/backend/locking/machine-lock-source.ts:183-213 | Takes a machine lock exactly when locking is on and nobody holds the path |
| `MachineLocks.MachineLockSource.ReleaseIfHeldByMachine` | src/backend/locking/machine-lock-source.ts:215-226 | Ends exactly the rows that rule names |
| `MachineLocks.MachineLockSource.HandleEvent` | src/backend/locking/machine-lock-source.ts:91-121 | What one audit event adds and ends, row by row: a write open takes a lock for its machine from now on if nobody holds the path |
| `MachineLocks.MachineLockSource.IpsOf` | src/backend/locking/machine-lock-source.ts:133-139 | Attributes each process to the machine of the last session that names both |
| `MachineLocks.MachineLockSource.OpenOn` | src/backend/locking/machine-lock-source.ts:145-158 | Builds that map: a named, not ignored file counts unless its mode spells "rdonly" letter by letter |
| `MachineLocks.MachineLockSource.ActiveMachineLocks` | src/backend/locking/machine-lock-source.ts:239-247 | The newest machine locks up to the cap, and all of them exactly when they fit |
| `MachineLocks.MachineLockSource.LockOpenPaths` | src/backend/locking/machine-lock-source.ts:160-166 | Locks exactly the open paths nobody held, each for its machine, from now and for the configured time, counting them |
| `MachineLocks.MachineLockSource.ReleaseClosed` | src/backend/locking/machine-lock-source.ts:168-173 | Ends, as of now, exactly the listed locks whose path is not open, and counts exactly those |
| `MachineLocks.PassMatchesIff` | src/backend/locking/machine-lock-source.ts:160-173 | A pass leaves the share matched if and only if every machine lock its listing left out is on an open path; with locking off the same decides whether a stale lock remains |
| `MachineLocks.PassMatches` | src/backend/locking/machine-lock-source.ts:160-173 | Within the row cap one pass with locking on leaves the share matched |
| `MachineLocks.SparedKeepsMatch` | src/backend/locking/machine-lock-source.ts:144-174 | A pass over one share changes nothing about whether another is matched |
| `MachineLocks.ReconciledExactly` | src/backend/locking/machine-lock-source.ts:144-174 | After a whole reconcile, for each enabled share of any size: it is matched, or with locking off keeps no stale lock, if and only if its listing left out no stale lock |
| `MachineLocks.OldestIsNeverReached` | src/backend/locking/machine-lock-source.ts:239-247 | One lock above the cap can leave the oldest, stale one behind, and repeating the pass changes nothing |
| `MachineLocks.CrowdedPass` | src/backend/locking/machine-lock-source.ts:239-247 | Such a pass exists |
| `MachineLocks.MachineLockSource.ReconcileShare` | src/backend/locking/machine-lock-source.ts:144-174 | One share: what was locked, listed and released, and both counts, exactly; matched if and only if the listing left out no stale lock; untouched when it matched already |
| `MachineLocks.MachineLockSource.Reconcile` | src/backend/locking/machine-lock-source.ts:128-177 | No status changes nothing; a status read makes one pass per enabled share and returns the sum of their counts; every share within the cap ends up matched; a table that matches is left alone |
| `EchoGuard.LiveMatchIsEcho` | src/backend/sync/echo-guard.ts:142-160 | The lists kept answer exactly as the full history of declared writes would |
| `EchoGuard.RecentIsWindow` | src/backend/sync/echo-guard.ts:168-199 | The timestamps kept after repeated filtering are the full history's trailing window |
| `EchoGuard.TrippedIffBurst` | src/backend/sync/echo-guard.ts:168-199 | A path is quarantined exactly when some trailing window of its history held more syncs than the limit |
| `EchoGuard.GatedBound` | src/backend/sync/echo-guard.ts:168-199 | A path asked before every sync never syncs more than the limit plus one times in any window |
| `EchoGuard.EchoGuard.GatedPathIsBounded` | src/backend/sync/echo-guard.ts:168-199 | In every state of the guard, a path with no sync recorded while it was quarantined has at most the limit plus one in any window of its history |
| `EchoGuard.EchoGuard.Expect` | src/backend/sync/echo-guard.ts:124-132 | Adds one declared write to the history |
| `EchoGuard.EchoGuard.PruneExpired` | src/backend/sync/echo-guard.ts:226-236 | Forgets only expectations that can no longer match |
| `EchoGuard.EchoGuard.ShouldDrop` | src/backend/sync/echo-guard.ts:142-160 | Holds exactly when some past declaration of that path is younger than the TTL, of equal size and within the time tolerance; nothing is consumed |
| `EchoGuard.EchoGuard.RecordSync` | src/backend/sync/echo-guard.ts:168-199 | Reports and records quarantine exactly as the path's history demands; only a sync of a quarantined path makes it ungated |
| `EchoGuard.EchoGuard.EvictOldestTracked` | src/backend/sync/echo-guard.ts:261-270 | Forgets whole histories, oldest first, never the path just synced unless nothing may be tracked |
| `EchoGuard.EchoGuard.Release` | src/backend/sync/echo-guard.ts:220-223 | Lifts one quarantine with its history |
| `EchoGuard.EchoGuard.Clear` | src/backend/sync/echo-guard.ts:253-259 | Forgets everything: expectations, tracked paths, quarantines and both counters |
| `InsertionMap.WithoutKeepsOrder` | src/backend/sync/echo-guard.ts:261-270 | Deleting a key leaves the others in their order, so the front of the table is the least recently synced |
| `FileIndex.ObservationReplays` | src/backend/sync/server-scanner.ts:324-371 | An observation changes a listener's picture exactly as it changes the index, and reports what was there before |
| `FileIndex.GroupedWith` | src/backend/sync/server-scanner.ts:335-343 | Adding a path adds it to its case group and to no other |
| `FileIndex.GroupedWithout` | src/backend/sync/server-scanner.ts:424-434 | Removing a path removes it from its group, and the group with its last member |
| `FileIndex.FileIndex.BeginScan` | src/backend/sync/server-scanner.ts:303-306 | Opens a generation no entry is stamped with |
| `FileIndex.FileIndex.Observe` | src/backend/sync/server-scanner.ts:324-371 | Stamps the entry, keeps the case groups exact, reports the change |
| `FileIndex.FileIndex.Reap` | src/backend/sync/server-scanner.ts:381-400 | Keeps exactly the stamped entries and reports each removal once, as a removal of what was known of it; replaying the report gives the new index |
| `FileIndex.FileIndex.HasCaseCollision` | src/backend/sync/server-scanner.ts:403-406 | Holds exactly when two indexed paths spell this one in different case |
| `FileIndex.CollisionIsOtherSpellingIff` | src/backend/sync/server-scanner.ts:402-406 | That is the documented "another indexed path differs only by case" if and only if the path is indexed or its bucket does not have exactly one member |
| `FileIndex.UnindexedSpellingIsMissed` | src/backend/sync/server-scanner.ts:402-406 | An input where they differ: only "A" is indexed and "a" is asked for |
| `FileIndex.FileIndex.CaseCollisions` | src/backend/sync/server-scanner.ts:409-417 | Two paths are in a reported group exactly when they differ only by case; every group has two members or more and is complete |
| `FileIndex.FileIndex.Clear` | src/backend/sync/server-scanner.ts:419-422 | Empties both maps |
| `ServerScanner.QuietScansAreCounted` | src/backend/sync/server-scanner.ts:639-647 | The counter is the number of quiet scans at the end of the history |
| `ServerScanner.IntervalLaw` | src/backend/sync/server-scanner.ts:639-659 | The interval is the floor doubled once for each quiet scan at the end of the history, capped by the ceiling, in every history, if and only if the floor is not above the ceiling |
| `ServerScanner.WalkSeesOneMore` | src/backend/sync/server-scanner.ts:577-584 | During a walk the stamped entries are exactly the listed ones |
| `ServerScanner.ServerScanner.Adapt` | src/backend/sync/server-scanner.ts:639-659 | Extends the interval's history by one scan |
| `ServerScanner.ServerScanner.ResetInterval` | src/backend/sync/server-scanner.ts:699-702 | Returns the interval to the floor |
| `ServerScanner.ServerScanner.Begin` | src/backend/sync/server-scanner.ts:559-567 | Starts a scan unless one is running |
| `ServerScanner.ServerScanner.Chunk` | src/backend/sync/server-scanner.ts:577-584 | Feeds a chunk of the walk to the index |
| `ServerScanner.ServerScanner.Finish` | src/backend/sync/server-scanner.ts:586-609 | After a complete walk the index equals the listing and exactly the unlisted paths are reported removed, once each; a truncated walk removes nothing |
| `ServerScanner.ServerScanner.FinishInterrupted` | src/backend/sync/server-scanner.ts:586-627 | A listener that throws during emission: the index is as after a finished walk, exactly a prefix of the report was told, and the interval is adapted twice |
| `ServerScanner.ServerScanner.Fail` | src/backend/sync/server-scanner.ts:610-627 | A failed walk removes and reports nothing; exactly the paths it had listed carry the abandoned generation's stamp |
| `ServerScanner.ServerScanner.EmittedChangesRebuildIndex` | src/backend/sync/server-scanner.ts:559-628 | As long as no scan failed, replaying everything emitted rebuilds the index |
| `HashCache.TrimKeepsNewest` | src/backend/sync/hasher.ts:198-206 | Trimming keeps exactly the newest entries, up to the bound |
| `HashCache.UsedKeeps` | src/backend/sync/hasher.ts:183-191 | A hit moves its key to the back and changes nothing else |
| `HashCache.StoreKeepsNewest` | src/backend/sync/hasher.ts:193-207 | Storing puts the key at the back, keeps the newest others and never exceeds the bound |
| `HashCache.LruCache.Get` | src/backend/sync/hasher.ts:183-191 | Finds an entry and marks it used |
| `HashCache.LruCache.Put` | src/backend/sync/hasher.ts:193-207 | Stores an entry within the bound |
| `HashCache.LruCache.Remove` | src/backend/sync/hasher.ts:209-211 | Forgets one key |
| `HashCache.HashService.Lookup` | src/backend/sync/hasher.ts:249-258 | Answers from the cache exactly when the identity matches, counting a hit or a miss |
| `HashCache.HashService.Store` | src/backend/sync/hasher.ts:270-272 | Remembers what was read under the identity found before reading |
| `HashCache.HashService.Invalidate` | src/backend/sync/hasher.ts:304-308 | Forgets a path in both caches |
| `HashCache.HashService.Clear` | src/backend/sync/hasher.ts:310-318 | Forgets everything and restarts the counters |
| `HashRuns.RunsAreSound` | src/backend/sync/hasher.ts:248-274 | In every interleaving of calls, writes and failures both caches stay within their bound and are right about every file they match |
| `HashRuns.HitIsRight` | src/backend/sync/hasher.ts:249-256 | A hit answers with the digest of the bytes at the call's stat, even when the caching read raced a write, provided the file is not written between that stat and the lookup |
| `HashRuns.RacedHitCanBeWrong` | src/backend/sync/hasher.ts:249-272 | With the gap open and a raced fill it can be wrong: a run, for any two contents with different digests |
| `HashRuns.HitIsRightIff` | src/backend/sync/hasher.ts:249-272 | Every hit of every interleaving is right if and only if the gap between its stat and its lookup is closed or what the filling read returned has the digest of the bytes at the stat; a closed gap implies a filling read that no write raced, and that a matching one |
| `HashRuns.UnwrittenStaysCurrent` | src/backend/sync/hasher.ts:249-272 | A read during which its file is neither written nor removed was not raced |
| `HashRuns.HitAlwaysRightIffFillClean` | src/backend/sync/hasher.ts:249-272 | A hit is right whatever raced reads return if and only if no write raced the read that filled its entry, which can be checked at the fill |
| `Failover.DownSinceIsUnbroken` | src/backend/recovery/failover.ts:135-139 | The outage start is the first signal of the unbroken outage the link is in |
| `Failover.HealthySinceIsUnbroken` | src/backend/recovery/failover.ts:127-133 | The healthy start is the first signal of the unbroken health since, or the reset it began with |
| `Failover.ServerHysteresis` | src/backend/recovery/failover.ts:122-140 | Unreachable exactly when some outage outlasted the grace period and the link has since neither been healthy for a whole stability period nor been reset |
| `Failover.DiskHysteresis` | src/backend/recovery/failover.ts:142-149 | Full exactly when it filled up and has not since been seen more than five points below the limit |
| `Failover.LinkIsItsOwn` | src/backend/recovery/failover.ts:122-140 | The server reason and its timestamps depend on the link signals alone |
| `Failover.DiskIsItsOwn` | src/backend/recovery/failover.ts:142-149 | The disk reason depends on the usage readings alone |
| `Failover.SyncIsItsOwn` | src/backend/recovery/failover.ts:151-156 | The engine reason depends on the engine's own verdicts alone |
| `Failover.HoldIsItsOwn` | src/backend/recovery/failover.ts:158-189 | The manual reason depends on holds and resumes alone |
| `Failover.ReasonsAreIndependent` | src/backend/recovery/failover.ts:118-189 | The reasons after any history are those four verdicts, each on its own signals |
| `Failover.StateMeans` | src/backend/recovery/failover.ts:237-245 | The state is read-only for any reason, otherwise degraded exactly while the link was last heard to be down |
| `Failover.ChangedAtIsLastChange` | src/backend/recovery/failover.ts:220-235 | The change time is that of the last call that changed the reasons |
| `Failover.LatchingsAreApart` | src/backend/recovery/failover.ts:122-140 | Two latchings without a reset are at least a grace and a stability period apart |
| `Failover.FailoverController.Observe` | src/backend/recovery/failover.ts:118-165 | Extends the history by one observation and returns the state it means |
| `Failover.FailoverController.HoldWrites` | src/backend/recovery/failover.ts:168-174 | Adds the manual reason only |
| `Failover.FailoverController.ResumeWrites` | src/backend/recovery/failover.ts:183-189 | Lifts the manual reason only |
| `Failover.FailoverController.ResetAll` | src/backend/recovery/failover.ts:198-206 | Clears every reason and takes the link as healthy from now |
| `FailoverService.FailoverService.ControllerFor` | src/backend/recovery/failover-service.ts:157-170 | A share keeps its controller; a new one starts with an empty history |
| `FailoverService.FailoverService.ApplyTo` | src/backend/recovery/failover-service.ts:179-203 | Writes and announces the column only when it moves |
| `FailoverService.StatusMeans` | src/backend/recovery/failover-service.ts:96-110 | An errored share has the engine reason and no other has; a full disk stops it; only an offline share can become unreachable or stay so |
| `FailoverService.FailoverService.Judge` | src/backend/recovery/failover-service.ts:96-110 | A share's status and the disk reach its controller as that share's health, and no other controller hears anything |
| `FailoverService.FailoverService.Observe` | src/backend/recovery/failover-service.ts:88-120 | Exactly the enabled shares have a controller, each column equals its verdict, an engine error or a full disk stops writes at once, and each column that moved was announced exactly once |
| `FailoverService.FailoverService.HoldShare` | src/backend/recovery/failover-service.ts:135-142 | Exactly this controller gains the manual reason, its other reasons and every other controller stay; the column becomes read-only, announced if it moved |
| `FailoverService.FailoverService.ResumeShare` | src/backend/recovery/failover-service.ts:145-155 | Exactly this controller loses the manual reason; the column follows the reasons that remain, announced if it moved; an unknown share is left alone |
| `TokenBucket.GrantsAreBacked` | src/backend/smb/audit-syslog.ts:322-333 | Grants plus what is left never exceed a full bucket plus what the clock earned |
| `TokenBucket.EarnedPerSecond` | src/backend/smb/audit-syslog.ts:322-325 | The clock earns the rate per second times the milliseconds over a thousand |
| `TokenBucket.RateBound` | src/backend/smb/audit-syslog.ts:322-333 | Between any two calls of any history at most the capacity plus the rate times the elapsed seconds is granted |
| `TokenBucket.GrantedIffWithinRate` | src/backend/smb/audit-syslog.ts:322-333 | A call is granted if and only if that keeps to the same bound counted from every call so far |
| `TokenBucket.GrantedOnceEarned` | src/backend/smb/audit-syslog.ts:322-333 | A request within the capacity is granted as soon as the rate times the seconds since the last call reaches it |
| `TokenBucket.TokenBucket.TryConsume` | src/backend/smb/audit-syslog.ts:322-333 | Grants exactly what keeps to the rate counted from every call so far |
| `AuditIngest.SplitAtNewlines` | src/backend/smb/audit-syslog.ts:547-553 | A text is taken apart at its newlines and nowhere else |
| `AuditIngest.SpacesAre` | src/backend/smb/audit-syslog.ts:560-562 | A line is blank when it holds nothing but the white space and line terminators of ECMA-262 |
| `AuditIngest.CuttingIsInvisible` | src/backend/smb/audit-syslog.ts:547-565 | However a stream with fitting lines is cut, the lines handed on are its non-blank lines |
| `AuditIngest.CuttingLosesALongLine` | src/backend/smb/audit-syslog.ts:555-558 | A line beyond the cap can be lost to a cut |
| `AuditIngest.ChunkIndependence` | src/backend/smb/audit-syslog.ts:547-565 | The lines do not depend on the cuts if and only if every line with content fits the cap |
| `AuditIngest.MergedLength` | src/backend/smb/audit-syslog.ts:499-506 | Settled events are the delivered and the dropped ones, interleaved in order |
| `AuditIngest.AuditIngest.EveryEventIsAccountedFor` | src/backend/smb/audit-syslog.ts:499-544 | Parsed equals delivered plus dropped plus queued if and only if the queue may hold an event or nothing was parsed |
| `AuditIngest.AuditIngest.ScheduleDrain` | src/backend/smb/audit-syslog.ts:508-516 | One drain at a time |
| `AuditIngest.AuditIngest.DropOldest` | src/backend/smb/audit-syslog.ts:500-503 | Makes room by dropping the oldest event, and counts a drop even when there was none |
| `AuditIngest.AuditIngest.Enqueue` | src/backend/smb/audit-syslog.ts:499-506 | The event joins the end, the oldest leaves a full queue, and a drain is on its way |
| `AuditIngest.AuditIngest.Screen` | src/backend/smb/audit-syslog.ts:451-483 | A line goes into exactly one bin, and only an accepted facility spends a token |
| `AuditIngest.AuditIngest.IngestLine` | src/backend/smb/audit-syslog.ts:451-490 | A parsed line, and no other, adds its event |
| `AuditIngest.AuditIngest.IngestChunk` | src/backend/smb/audit-syslog.ts:547-565 | The lines of a chunk are ingested in order and the partial line is carried, or dropped and counted exactly when it outgrows the cap |
| `AuditIngest.AuditIngest.DeliverOne` | src/backend/smb/audit-syslog.ts:521-525 | Delivers the oldest event |
| `AuditIngest.AuditIngest.DeliverUntilAwait` | src/backend/smb/audit-syslog.ts:518-537 | Delivers in order up to the next await, the end, or a throwing listener |
| `AuditIngest.AuditIngest.RunDrain` | src/backend/smb/audit-syslog.ts:518-544 | Nothing is lost or reordered, and a non-empty queue always keeps a drain scheduled or running |
| `SlidingWindow.PruningIsInvisible` | src/backend/security/rate-limit.ts:80-105 | Filtering earlier never changes what a later window holds |
| `RateLimiter.AdmissibleExtends` | src/backend/security/rate-limit.ts:80-105 | Admitting below the limit keeps the history within it |
| `RateLimiter.WindowBound` | src/backend/security/rate-limit.ts:80-105 | Admissions within one window of each other number at most the limit |
| `RateLimiter.NeverMoreThanLimit` | src/backend/security/rate-limit.ts:80-105 | No trailing window holds more than the limit |
| `RateLimiter.RetryAfterIsEnough` | src/backend/security/rate-limit.ts:86-94 | A refused caller that waits as long as it was told is admitted |
| `RateLimiter.SlidingWindowLimiter.Check` | src/backend/security/rate-limit.ts:80-105 | Admits exactly when the full history has fewer than the limit in the window; a refusal leaves no mark |
| `RateLimiter.SlidingWindowLimiter.Reset` | src/backend/security/rate-limit.ts:108-110 | Forgets one key |
| `RateLimiter.SlidingWindowLimiter.ResetAll` | src/backend/security/rate-limit.ts:112-114 | Forgets every key |
| `RateLimiter.SlidingWindowLimiter.Prune` | src/backend/security/rate-limit.ts:117-130 | Drops expired timestamps and empty keys and forgets no admission, so no answer changes |
| `ConfigTree.PathRecovered` | src/backend/config/config-manager.ts:104-108 | Splitting a row's key recovers the path it was made from |
| `ConfigTree.Flatten` | src/backend/config/config-manager.ts:94-102 | Every leaf gets a row under its dotted key and every new row is some leaf's |
| `ConfigTree.Unflatten` | src/backend/config/config-manager.ts:104-129 | Rows are inserted one after another |
| `ConfigTree.InsertStaysPart` | src/backend/config/config-manager.ts:109-126 | Inserting a leaf of an object keeps a partial copy of it partial |
| `ConfigTree.EveryLeafIsEverything` | src/backend/config/config-manager.ts:94-129 | A partial copy with every leaf is the object, if no object inside it is empty |
| `ConfigTree.UnflattenedIsTidy` | src/backend/config/config-manager.ts:104-129 | What is rebuilt never has a dotted key or an empty object inside |
| `ConfigTree.RoundTrip` | src/backend/config/config-manager.ts:94-129 | However an object is flattened and in whatever order its rows return, it is rebuilt if and only if no key holds a dot, no object inside it is empty and an empty top key leads straight to a leaf |

## Left out

- Status labels, messages, warnings, file-name checks, emitted events and logging: no effect on the properties.
- The conflict outcome record, a verdict's next state and a record's last error: reported, never read back by the engine.
- `pause`, `resume` and the re-entrancy check of `runCycle`: a paused share takes no step.
- The transfer queue's order and concurrency limit: every interleaving is allowed, which includes the queue's.
- The echo guard inside a reconcile: whether a sync trips the quarantine is an input of the segment, and `EchoGuard` proves when it does.
- Port bodies, the version store's storage and the database: used through the assumptions above; the statted size limit of the filesystem ports is not part of this model.
- Lock rows of deleted shares, reuse of row numbers and changes of a share's mount point while locks exist.
- Marker files next to locked programs: only whether one could be written is an input, since it decides what the row claims.
- MachineLocks.MachineLockSource.Reconcile: its own clause promises a match within the row cap; `ReconciledExactly` says when its passes reach one above it.
- HashRuns.HitIsRight: assumes the file is not written between the call's `stat` and its lookup; `HitIsRightIff` is the exact condition.
- ServerScanner.ServerScanner.EmittedChangesRebuildIndex: holds while no scan has failed; `Fail` and `FinishInterrupted` say what a failed one withholds.
- The paging of shares, and which file names Samba's status and the ignore patterns yield: `Naming` is a parameter.
- Failover listeners, the reason line for the status page and the reading of disk metrics: the percentage is a parameter.
- Order of paths and of removals in the file index: the map is unordered and a removal report is known up to order.
- Worker threads, timers and `stop` of the scanner: a walk is its chunks and how it ends.
- `hashIfChanged`, read slots and streaming: a read is one step that may return anything if the file changed meanwhile.
- The audit line grammar, sockets and `stop`: the parser and the facility test are parameters of `AuditIngest`.
- Negative bucket rates and capacities: the bounds are for non-negative ones.
- String lengths: a Dafny character stands for one code unit of the runtime.
- The sweeper timer, HTTP headers and key extraction of the rate limiter.
- In-place mutation of the nested objects `unflatten` builds: insertion is modelled on values, so aliasing inside one object is not captured.
- Keys that name inherited properties of the runtime's objects, in `ConfigTree`.
- The cache watcher and the lock conflict resolver: separate components with rules of their own.
