# Verified model of the backend's stateful services

A Dafny model of the backend parts whose correctness spans many steps, with proofs about every run, every input
or every crash. `dafny verify dfyconfig.toml` checks the whole project.

- **SFTP task scheduler** (`path_text`, `task_claims`, `claim_paths`, `scheduler_rules`, `scheduler_runs`,
  `scheduler_admission`, `scheduler_fairness`, `scheduler_liveness`, `scheduler_starvation`, `task_scheduler`). The admission rules are a
  state machine over submissions, starts, drops and releases; safety, ordering, progress and fairness are theorems
  about all its runs. The class `SftpTaskScheduler` carries the run it has performed as ghost history and every method
  is proved to extend it legally, so the theorems hold of the class.
- **Plaintext-to-SQLCipher migration** (`migration_protocol`, `sqlcipher_migration`). The protocol is a machine with
  one file operation per step; operations may fail or be torn, crashes and restarts may come between any two steps.
  The class `DatabaseFiles` follows the code call by call and is proved to take only steps of the machine.
- **Remote archive operations** (`remote_tree`, `remote_file_system`, `remote_clearing`, `archive_placement`,
  `archive_names`, `archive_commit`, `archive_service`). The host is a mutable tree whose requests may fail at any
  time, or one that grants what the tree allows, and the operation may be cancelled or late at any check; methods are
  proved against a pure overlay, a pure keep-both placement and a pure account of what cleanup undoes.
- **SOCKS5 front end** (`number_text`, `numerals`, `socks5`, `dynamic_forward`), for RFC 1928 sections 3 to 5.
- **Operation guard** (`operation_guard`), **ADD COLUMN migrations** (`add_column`, `sqlite_identifiers`) and
  **quoting** (`text_replace`, `posix_shell`, `fish_shell`, `archive_commands`, `archive_tools`).

## Findings

Where the code does less than its documentation or than one might expect, the code is modelled as it is:

- Claim normalisation trims before it resolves `.`, so it is not idempotent, and two spellings of one remote directory
  can get claims that do not conflict (`OneDirectoryTwoClaims`: `/x /.` and `/x `). Claims conflict as the remote paths
  do if and only if trimming leaves the raw paths alone (`ConflictsRightIff`); an ordinary last name is enough for
  idempotence (`NormalizeIdempotentForNames`).
- A task that is heavy, a mutation and not exclusive can wait for ever although capacity keeps being released, if and
  only if the heavy and mutation limits together are at most the total (`StarvesExactlyWhen`); the default limits are
  such. A task that has none of that kind ahead of it, and is none itself, leaves the queue after a number of turnovers
  of the active set that only its position fixes (`EveryTaskLeaves`).
- An unknown outcome is also reported for an admitted mutation that ended before its runner was called
  (`UnknownOutcomes` is the exact statement, `CancelBeforeTheRunnersTurn` a run of the class).
- SQLite compares identifiers without regard to ASCII case, the column cache does not. Spelling one table two ways can
  make a statement run into an existing column (`TwoSpellingsDefeatTheCache`); `NoneRunsIntoExistingIff` gives the exact
  condition for all migrations.
- Extraction is meant to stay inside the target directory, but the name of the directory comes from the archive's base
  name, and `...zip` strips to `..`, `..zip` to `.`. A commit named after the archive is then renamed or merged outside
  the target directory (`DottedArchivesEscape`, `MergedIntoTheParent`). It is confined if and only if the stripped name
  is neither `.` nor `..`, for a merge if and only if it is not `..` (`StaysInsideIff`, `RenameIsConfinedIff`); the
  theorems on whole extractions are about archives that pass this check.

## Model

| member | source | states |
|---|---|---|
| `TaskClaims.ConflictIsAncestry` | packages/backend/src/sftp/task-scheduler.ts:275-281 | The text test on canonical claims (equality, the root, prefix up to a slash) holds exactly when one component list is an ancestor of, or equal to, the other |
| `TaskClaims.NormalizeClaimPath` | packages/backend/src/sftp/task-scheduler.ts:254-266 | Every raw claim, absolute or not, becomes a canonical absolute path; which one is the row below |
| `ClaimPaths.ClaimIsRemotePathIff` | packages/backend/src/sftp/task-scheduler.ts:254-266 | For every raw absolute path the claim names exactly the remote path the text names if and only if trimming leaves its end alone |
| `ClaimPaths.ConflictsAsRemote` | packages/backend/src/sftp/task-scheduler.ts:254-281 | Two raw absolute paths left alone by trimming conflict as claims exactly when one remote path is equal to or above the other |
| `ClaimPaths.ConflictsRightIff` | packages/backend/src/sftp/task-scheduler.ts:254-281 | The exact condition: all conflicts of a raw absolute path with paths left alone by trimming are as the remote paths require if and only if trimming leaves it alone too |
| `ClaimPaths.OneDirectoryTwoClaims` | packages/backend/src/sftp/task-scheduler.ts:254-281 | The failure: `/x /.` and `/x ` are one remote directory, and their claims do not conflict |
| `ClaimPaths.NormalizeIdempotentForNames` | packages/backend/src/sftp/task-scheduler.ts:254-266 | Read from the input alone: when the last piece of the trimmed text is an ordinary name, normalising twice is normalising once |
| `ClaimPaths.PathIsWalked` | packages/backend/src/sftp/task-scheduler.ts:260-265 | How a remote path is read, for every text: a name goes down, `..` goes up and stops at the root, `.` and doubled slashes stay, a backslash counts as a slash |
| `ClaimPaths.SpaceAroundIsIgnored` | packages/backend/src/sftp/task-scheduler.ts:254-259 | White space around a claim does not matter, and a claim that is not absolute without it is the root |
| `TaskClaims.NormalizeIdempotentWhen` | packages/backend/src/sftp/task-scheduler.ts:254-266 | Normalising a second time changes nothing if and only if the first result does not end in a character that trimming removes |
| `TaskClaims.NormalizeNotIdempotent` | packages/backend/src/sftp/task-scheduler.ts:254-266 | A concrete path, `/x /.`, for which normalising twice differs from normalising once, because trimming comes before `.` is resolved |
| `TaskClaims.DistinctByLength` | packages/backend/src/sftp/task-scheduler.ts:290-292 | The canonical claims without repeats, exactly the same members, shortest first |
| `TaskClaims.KeepUnblocked` | packages/backend/src/sftp/task-scheduler.ts:293-302 | The loop keeps pairwise unblocked claims from the list, and each claim it passes over is blocked by a kept one that is no longer |
| `TaskClaims.NormalizeClaims` | packages/backend/src/sftp/task-scheduler.ts:289-303 | What a task reserves: canonical, pairwise free of conflict, each a normalised input, every normalised input covered by an equal or ancestor claim, and conflicting with exactly the canonical paths the full list conflicts with |
| `TaskClaims.CoverKeepsConflict` | packages/backend/src/sftp/task-scheduler.ts:275-281 | Whatever conflicts with a claim also conflicts with every claim that covers it |
| `TaskClaims.MinimisingPreservesConflicts` | packages/backend/src/sftp/task-scheduler.ts:289-303 | Any covering subset of canonical claims conflicts with exactly the canonical paths the whole set conflicts with |
| `PathText.ResolveOfRender` | packages/backend/src/sftp/task-scheduler.ts:260-265 | Printing a component list and resolving the text again gives the list back |
| `PathText.RenderOneMore` | packages/backend/src/sftp/task-scheduler.ts:260-265 | The canonical text of a component list: the root is a slash, and one more component adds a slash and that component |
| `PathText.SlashedPrefix` | packages/backend/src/sftp/task-scheduler.ts:280 | The prefix test with a slash appended to both texts is exactly the prefix relation of the component lists |
| `SchedulerRules.StepKeepsSafety` | packages/backend/src/sftp/task-scheduler.ts:541-634 | Submission, start, drop and release each keep the total, heavy and mutation limits, exclusive tasks alone, active claims disjoint, queue order by submission, and no task in two places |
| `SchedulerRules.EveryRunIsSafe` | packages/backend/src/sftp/task-scheduler.ts:541-652 | In every state of every legal run the three limits hold, an active exclusive task is alone and claims of distinct active tasks never conflict; a runner whose task already ended still counts until its release |
| `SchedulerRuns.HeldUntilDeparture` | packages/backend/src/sftp/task-scheduler.ts:541-564 | From its submission a task is queued or active until it is dropped or released: none gets lost |
| `SchedulerRuns.GoneForGood` | packages/backend/src/sftp/task-scheduler.ts:897-906 | A task that was dropped or released is never queued or active again |
| `SchedulerRuns.OlderBlockerHasLeft` | packages/backend/src/sftp/task-scheduler.ts:575-652 | For two tasks of which the older conflicts with the younger or either is exclusive: when the younger starts, the older has been dropped or released before and never starts later; ownership intervals are disjoint and in submission order, an exclusive task waits for every older task and holds back every younger one |
| `SchedulerRuns.BlockedByOlder` | packages/backend/src/sftp/task-scheduler.ts:575-652 | While an older task that conflicts, or is exclusive, or faces an exclusive younger one, is still queued or active, the younger one cannot be the next to start |
| `SchedulerAdmission.RunnableIff` | packages/backend/src/sftp/task-scheduler.ts:575-652 | A queued task may start exactly when nothing keeps it waiting: no exclusive task before it or active, no pool it needs full (slots counted one by one), no path tree shared with an active or older queued task; an exclusive one when it is first and nothing is active |
| `SchedulerAdmission.NothingWaitsForNothing` | packages/backend/src/sftp/task-scheduler.ts:541-598 | In every run that dispatches before it submits or releases, at each submission and release every queued task is kept waiting by one of these |
| `SchedulerAdmission.StartsAreFirstFree` | packages/backend/src/sftp/task-scheduler.ts:575-598 | In every legal run a task that starts is kept waiting by none of them, and every task queued before it by some |
| `SchedulerAdmission.PoolsAreNeverOverfull` | packages/backend/src/sftp/task-scheduler.ts:606-622 | In every state of every run no pool holds more tasks than its limit, counted one by one, an exclusive task is alone, and no two active tasks share a path tree |
| `SchedulerRuns.WorkIsConserved` | packages/backend/src/sftp/task-scheduler.ts:541-598 | When no queued task can start and the queue is not empty, some task is active |
| `SchedulerRuns.RunsDrain` | packages/backend/src/sftp/task-scheduler.ts:978-987 | Without new submissions a run from any reachable state has at most twice the queue plus the active tasks events left: it ends |
| `SchedulerRuns.DrainedOrWaiting` | packages/backend/src/sftp/task-scheduler.ts:492-500 | A run without submissions that comes to rest is idle or has a runner left to release, and once all its work is used up queue and active set are empty, which resolves the idle waiters |
| `SchedulerFairness.OvertakingSparesThePools` | packages/backend/src/sftp/task-scheduler.ts:606-622 | A younger task that overtakes an unblocked head of any kind uses no full pool, so it leaves every full pool as it is, and the head stays unblocked |
| `SchedulerFairness.ReleaseLetsHeadStart` | packages/backend/src/sftp/task-scheduler.ts:606-622 | When a task releases that has a slot in every full pool an unblocked head needs, that head is the next task to start; for heads in one pool and in both |
| `SchedulerFairness.FirstReleaseStartsHead` | packages/backend/src/sftp/task-scheduler.ts:541-622 | Over every legal run: the first release in the pool an unblocked head waits for makes it the next to start, whoever overtook it before; a head in both pools included when the two pools together exceed the total |
| `SchedulerFairness.NoHeadOutwaitsATurnover` | packages/backend/src/sftp/task-scheduler.ts:541-622 | In every run that dispatches before it submits or releases, an unblocked head in at most one pool, or in both when the pools together exceed the total, has left the queue at rest once every task active with it has released |
| `SchedulerLiveness.TurnoverClearsHead` | packages/backend/src/sftp/task-scheduler.ts:575-652 | Once every task that was active has released, the head overlaps nothing that is active: nothing it would have to wait for started meanwhile, and an exclusive head has started |
| `SchedulerLiveness.EveryTaskLeaves` | packages/backend/src/sftp/task-scheduler.ts:541-652 | Liveness of every queued task, whatever it claims or excludes: with n tasks ahead, none of the kind that can starve, it has left the queue after 2(n + 1) turnovers of the active set |
| `SchedulerStarvation.BothPoolsCanStarve` | packages/backend/src/sftp/task-scheduler.ts:606-622 | For all limits under which the heavy and the mutation pool fit side by side: runs the scheduler accepts, with distinct ids, keep a heavy mutation waiting at the head through any number of turnovers |
| `SchedulerStarvation.OthersCannotStarve` | packages/backend/src/sftp/task-scheduler.ts:606-622 | Under all other limits, and for every other kind of task under all limits, no head waits through two turnovers |
| `SchedulerStarvation.StarvesExactlyWhen` | packages/backend/src/sftp/task-scheduler.ts:606-622 | The exact condition, for all limits and resources: a kind of task can be overtaken for ever at the head if and only if it is heavy, a mutation and not exclusive, and heavy plus mutation limit is at most the total |
| `SchedulerStarvation.SomeKindStarvesIff` | packages/backend/src/sftp/task-scheduler.ts:606-622 | The same as a condition on the limits alone: some kind of task can starve if and only if the heavy and mutation limits together are at most the total |
| `SchedulerStarvation.DefaultLimitsStarve` | packages/backend/src/sftp/task-scheduler.ts:206-213 | The default limits 3, 2 and 1 are among those under which a heavy mutation can starve |
| `TaskScheduler.TaskRecord.Finish` | packages/backend/src/sftp/task-scheduler.ts:864-890 | The first terminal state wins and a later one changes nothing; completion resolves once with that snapshot, timer and listener go, and the release resolves now unless slots are still owned |
| `TaskScheduler.TaskRecord.Terminate` | packages/backend/src/sftp/task-scheduler.ts:770-833 | A task ended by the scheduler: a queued one ends unstarted, a started one gets its abort hook once, a started mutation reports an unknown outcome, an ended one is left as it is |
| `TaskScheduler.TaskRecord.Settle` | packages/backend/src/sftp/task-scheduler.ts:705-763 | While the task is running the snapshot takes the state, exactly the result and exactly the failure that the runner gave, a cancel request only with a cancelled state, and keeps start and partial result; a late outcome changes nothing |
| `TaskScheduler.TaskRecord.Release` | packages/backend/src/sftp/task-scheduler.ts:897-921 | The release resolves exactly once, after completion |
| `TaskScheduler.SftpTaskScheduler.constructor` | packages/backend/src/sftp/task-scheduler.ts:334-345 | A new scheduler is empty and valid for its session and limits |
| `TaskScheduler.CreateScheduler` | packages/backend/src/sftp/task-scheduler.ts:330-345 | Refused if and only if the session id is blank, a limit is not positive or a pool exceeds the total |
| `TaskScheduler.SftpTaskScheduler.ActiveTasksAreSafe` | packages/backend/src/sftp/task-scheduler.ts:541-652 | The class state is the end of a legal run, hence safe: limits, exclusivity, disjoint claims |
| `TaskScheduler.SftpTaskScheduler.WaitingMeansRunning` | packages/backend/src/sftp/task-scheduler.ts:492-500 | Between public steps a non-empty queue or a waiting caller implies a live runner |
| `TaskScheduler.SftpTaskScheduler.UnknownOutcomes` | packages/backend/src/sftp/task-scheduler.ts:770-833 | For a task ended by deadline or cancellation the outcome is unknown if and only if it is a mutation that had been admitted; always when its runner was called, never when it ended in the queue |
| `TaskScheduler.CancelBeforeTheRunnersTurn` | packages/backend/src/sftp/task-scheduler.ts:660-673 | The witness: a mutation admitted at once and cancelled before the turn that would call its runner reports an unknown outcome although the runner is never called |
| `TaskScheduler.SftpTaskScheduler.IdleWakesEveryone` | packages/backend/src/sftp/task-scheduler.ts:978-987 | Whenever nothing is queued or active, every waiter ever handed out has been woken |
| `TaskScheduler.SftpTaskScheduler.DrainedRunsWakeEveryone` | packages/backend/src/sftp/task-scheduler.ts:492-500 | Once tasks are no longer submitted the run has boundedly many events left, and when they are used up every earlier waiter has been woken |
| `TaskScheduler.SftpTaskScheduler.HeadsLeave` | packages/backend/src/sftp/task-scheduler.ts:541-622 | The fairness of runs, for the queue of the class |
| `TaskScheduler.SftpTaskScheduler.TasksLeave` | packages/backend/src/sftp/task-scheduler.ts:541-652 | The liveness of runs, for every record in the queue of the class |
| `TaskScheduler.SftpTaskScheduler.SettlesOnce` | packages/backend/src/sftp/task-scheduler.ts:864-921 | Completion and release each resolve at most once, completion first; the timer is armed exactly while there is no completion, the hook runs at most once |
| `TaskScheduler.SftpTaskScheduler.Place` | packages/backend/src/sftp/task-scheduler.ts:660-696 | Public state says where a record is held: queued exactly when in the queue, running only when active |
| `TaskScheduler.SftpTaskScheduler.HasCapacityFor` | packages/backend/src/sftp/task-scheduler.ts:606-622 | True exactly when the rules give the candidate a slot in the total, heavy and mutation pools and no exclusive task is active |
| `TaskScheduler.SftpTaskScheduler.ConflictsWithAny` | packages/backend/src/sftp/task-scheduler.ts:630-652 | True exactly when the candidate's claims conflict with those of some record in the list |
| `TaskScheduler.SftpTaskScheduler.FindNextRunnableIndex` | packages/backend/src/sftp/task-scheduler.ts:575-598 | The first queue position that nothing keeps waiting, or -1 exactly when every queued task is kept waiting |
| `TaskScheduler.SftpTaskScheduler.StartAt` | packages/backend/src/sftp/task-scheduler.ts:660-666 | The record leaves its queue position, becomes active and running, and its runner is scheduled but not yet called |
| `TaskScheduler.SftpTaskScheduler.Dispatch` | packages/backend/src/sftp/task-scheduler.ts:541-564 | Starts tasks until every queued one is kept waiting, none of their runners called yet, and changes nothing else; idle waiters are resolved when nothing is left and kept otherwise |
| `TaskScheduler.SftpTaskScheduler.NothingStartableWaits` | packages/backend/src/sftp/task-scheduler.ts:541-598 | Between public steps each queued record has an exclusive task before it or active, a full pool it needs, or a path tree taken by an active or older one; an exclusive record has an older or an active one |
| `TaskScheduler.SftpTaskScheduler.ResolveIdleWaiters` | packages/backend/src/sftp/task-scheduler.ts:978-987 | All waiters are resolved when queue and active set are empty, none otherwise |
| `TaskScheduler.SftpTaskScheduler.Schedule` | packages/backend/src/sftp/task-scheduler.ts:356-421 | Blank operation, non-positive timeout and known id are refused without effect; otherwise the record carries the next number, the reserved claims and its deadline, its runner is not called yet, an aborted signal cancels it unstarted, only starts follow, and every idle waiter is kept or woken |
| `TaskScheduler.SftpTaskScheduler.HandleCancellation` | packages/backend/src/sftp/task-scheduler.ts:521-534 | The task ends at once unless it had ended; every other record is unchanged or started, every idle waiter kept or woken |
| `TaskScheduler.SftpTaskScheduler.HandleDeadline` | packages/backend/src/sftp/task-scheduler.ts:770-797 | As for cancellation, with the deadline failure; a running task keeps its slots and claims and nothing starts in its place; every idle waiter is kept or woken |
| `TaskScheduler.SftpTaskScheduler.BeginRunner` | packages/backend/src/sftp/task-scheduler.ts:668-673 | The runner is called exactly when the task is still running in the turn after admission |
| `TaskScheduler.SftpTaskScheduler.ReportPartial` | packages/backend/src/sftp/task-scheduler.ts:679-687 | A partial result is recorded only while running |
| `TaskScheduler.SftpTaskScheduler.ApplyRunOutcome` | packages/backend/src/sftp/task-scheduler.ts:705-763 | The runner's state, result and failure are published while running, a late outcome is not; the record stays active until its release |
| `TaskScheduler.SftpTaskScheduler.RunnersAreReported` | packages/backend/src/sftp/task-scheduler.ts:705-763 | Whatever happened since, a record its runner ended says exactly what the runner said: succeeded with the result, failed with the failure, or cancelled |
| `TaskScheduler.SftpTaskScheduler.AbortsAreExplained` | packages/backend/src/sftp/task-scheduler.ts:770-833 | Whatever happened since, a record the scheduler ended has no result and says deadline or cancellation, unknown exactly for a started mutation |
| `TaskScheduler.SftpTaskScheduler.ReleaseRecord` | packages/backend/src/sftp/task-scheduler.ts:897-906 | Slots and claims are given back once, the public snapshot is unchanged, only starts follow, and every idle waiter is kept or woken |
| `TaskScheduler.SftpTaskScheduler.CancelAll` | packages/backend/src/sftp/task-scheduler.ts:472-482 | Every queued task is cancelled unstarted, every live runner is told to stop but keeps its slots and claims, nothing starts, and every idle waiter is kept or woken |
| `TaskScheduler.SftpTaskScheduler.ForgetTask` | packages/backend/src/sftp/task-scheduler.ts:455-462 | Forgets a task if and only if it is known, ended and no longer owns slots |
| `TaskScheduler.SftpTaskScheduler.WaitForIdle` | packages/backend/src/sftp/task-scheduler.ts:492-500 | A new waiter is registered exactly when something is queued or active, and is woken at once otherwise |
| `MigrationProtocol.MoveKeepsContent` | packages/backend/src/db/sqlcipher.ts:338-529 | Every operation of migration or recovery, whether it succeeds, fails or is torn, every crash and every restart keeps the system at a point the protocol allows |
| `MigrationProtocol.NothingIsEverLost` | packages/backend/src/db/sqlcipher.ts:363-529 | However often operations fail and the process crashes, also during recovery, some of database, temp and backup holds the whole content; when the database is missing or empty the temp is absent or a complete encrypted copy |
| `MigrationProtocol.StepMakesProgress` | packages/backend/src/db/sqlcipher.ts:363-416 | Each operation lowers a bound, so every run ends, the recursion on an empty database included |
| `MigrationProtocol.StepKeepsReport` | packages/backend/src/db/sqlcipher.ts:482-488 | Whether a run reports a migration is decided by what it finds first, and every successful step keeps that |
| `MigrationProtocol.RunsConverge` | packages/backend/src/db/sqlcipher.ts:482-529 | From every reachable point not on a failure path a complete run ends encrypted in place with the original content, temp and backup gone |
| `MigrationProtocol.RecoveryConverges` | packages/backend/src/db/sqlcipher.ts:363-529 | After any sequence of crashes, failures and restarts one undisturbed run ends with the database encrypted and holding the original content, pages that were only in the log included, temp and backup gone, and reports a migration exactly when it found the database in plaintext or, the database missing, no copy; the next run changes nothing and reports false |
| `MigrationProtocol.FailedReplacementIsUndone` | packages/backend/src/db/sqlcipher.ts:510-523 | Wherever the replacement fails, in whatever way and after whatever came before: when the operations after that succeed, the plaintext original is back in place with its content and there is no backup |
| `MigrationProtocol.FailedEncryptionIsUndone` | packages/backend/src/db/sqlcipher.ts:491-508 | Wherever making the copy or comparing it fails: when its removal succeeds, neither copy nor backup is left and the database holds its content in plaintext |
| `MigrationProtocol.StepIsCareful` | packages/backend/src/db/sqlcipher.ts:394-529 | Along every run, whatever fails: no copy takes the database's place unless it verified and was not changed since, the original is set aside only for such a copy with as many tables, and its backup is removed only once the replacement verified in place |
| `MigrationProtocol.ConvergedIsStable` | packages/backend/src/db/sqlcipher.ts:482-488 | On a finished migration a run changes nothing and reports false |
| `MigrationProtocol.UnreadableFilesAreKept` | packages/backend/src/db/sqlcipher.ts:363-416 | A database, or a temp in place of a missing database, that does not open under the key stays untouched together with the files beside it |
| `SqlCipherMigration.DatabaseFiles.Perform` | packages/backend/src/db/sqlcipher.ts:324-347 | One file operation with any possible outcome is one step of the protocol, and what a crash after it would leave is recorded |
| `SqlCipherMigration.DatabaseFiles.RemoveDatabaseArtifact` | packages/backend/src/db/sqlcipher.ts:338-341 | Sidecars go before the main file; on success the file is gone |
| `SqlCipherMigration.DatabaseFiles.PromoteVerifiedTemp` | packages/backend/src/db/sqlcipher.ts:394-409 | A temp takes the place of a missing database only after it verified |
| `SqlCipherMigration.DatabaseFiles.RecoverInterruptedMigration` | packages/backend/src/db/sqlcipher.ts:363-416 | Recovery follows the protocol step by step in every case and ends recovered or with an error; the call on itself after removing an empty database ends |
| `SqlCipherMigration.DatabaseFiles.EncryptCopy` | packages/backend/src/db/sqlcipher.ts:424-469 | Only the copy is changed: success leaves it to be verified, a failure is one of checkpoint, copy or rekey and leads to its removal |
| `SqlCipherMigration.DatabaseFiles.AbandonCopy` | packages/backend/src/db/sqlcipher.ts:494-508 | When its operations succeed nothing but the copy is gone, and the database holds its content in plaintext |
| `SqlCipherMigration.DatabaseFiles.PrepareVerifiedCopy` | packages/backend/src/db/sqlcipher.ts:491-508 | Ends with a verified copy beside the untouched original, or with an error |
| `SqlCipherMigration.DatabaseFiles.CheckCopy` | packages/backend/src/db/sqlcipher.ts:502-508 | A copy that does not verify ends the run, one with other tables is removed |
| `SqlCipherMigration.DatabaseFiles.SetOriginalAside` | packages/backend/src/db/sqlcipher.ts:510-511 | The original becomes the backup, without its sidecars |
| `SqlCipherMigration.DatabaseFiles.InstallCopy` | packages/backend/src/db/sqlcipher.ts:512-523 | The copy moves in and verifies, or, when only that failed, the plaintext original is back in place |
| `SqlCipherMigration.DatabaseFiles.RestoreOriginal` | packages/backend/src/db/sqlcipher.ts:515-523 | When its operations succeed the database is the plaintext original again and there is no backup; the call reports the error |
| `SqlCipherMigration.DatabaseFiles.ReplaceDatabase` | packages/backend/src/db/sqlcipher.ts:510-528 | The original stays as backup until the replacement verified; when setting aside, moving in or verifying is the only operation that fails, the plaintext original is in place afterwards |
| `SqlCipherMigration.DatabaseFiles.Migrate` | packages/backend/src/db/sqlcipher.ts:482-529 | After every operation, hence at every possible crash, the content is intact; it throws exactly when an operation failed, and when that was the only one, a failed encryption or replacement is undone; a normal return means encrypted in place, artifacts gone, and the value tells whether the original was found in plaintext; nothing is trusted or removed before it verified |
| `RemoteTree.PutThenSame` | packages/backend/src/sftp/archive-service.ts:1518-1550 | What was put at a path is found there, and a second put forgets the first |
| `RemoteTree.PutsCommute` | packages/backend/src/sftp/archive-service.ts:1518-1550 | Changes at disjoint paths do not see each other and commute |
| `RemoteTree.OverlayPointwise` | packages/backend/src/sftp/archive-service.ts:1614-1624 | The overlay of two directories is, name by name, the merge of what both have |
| `RemoteTree.SourceLands` | packages/backend/src/sftp/archive-service.ts:1594-1626 | Every file, link and special entry of the source is in the overlay at its own path |
| `RemoteTree.SourceDirectoriesLand` | packages/backend/src/sftp/archive-service.ts:1594-1626 | Every directory of the source, empty ones included, is a directory of the overlay |
| `RemoteTree.NothingElseLands` | packages/backend/src/sftp/archive-service.ts:1594-1626 | Whatever the overlay has, the source has or the target has unchanged |
| `RemoteTree.TargetSurvives` | packages/backend/src/sftp/archive-service.ts:1594-1626 | What only the target has is in the overlay, unless a non-directory of the source stands in for a directory above it |
| `RemoteFileSystem.RemoteHost.RemoveTree` | packages/backend/src/sftp/archive-service.ts:1564-1591 | Success leaves nothing at the path, failure a part of what stood there; nothing else changes, links are not followed, it terminates, and it succeeds when the host grants requests and, where it checks, nothing disturbs the operation |
| `RemoteFileSystem.RemoteHost.MergeEntry` | packages/backend/src/sftp/archive-service.ts:1594-1626 | Success leaves exactly the overlay of target and source at the target and nothing at the source; however far a failed merge got, nothing outside the two entries changed and what stands in both still overlays to the same tree; it succeeds when the host grants requests and nothing disturbs the operation |
| `RemoteFileSystem.RemoteHost.ReplaceEntry` | packages/backend/src/sftp/archive-service.ts:1609-1613 | Anything but directory onto directory is replaced by the source, with the same guarantee on failure |
| `RemoteFileSystem.RemoteHost.MoveOrMerge` | packages/backend/src/sftp/archive-service.ts:1616-1624 | A child is merged when the target has it and moved when it does not |
| `RemoteClearing.RewriteIsCleared` | packages/backend/src/sftp/archive-service.ts:912-923 | Whatever is written at a registered temporary path does not matter to the tree that clearing leaves |
| `RemoteClearing.MissingNeedsNoClearing` | packages/backend/src/sftp/archive-service.ts:626-629 | Dropping a registered path where nothing stands does not change what clearing leaves |
| `RemoteClearing.OneMoreEmptied` | packages/backend/src/sftp/archive-service.ts:1500-1504 | Making one more missing directory is undone by removing it again, before the ones made earlier |
| `RemoteClearing.LongestIsDeepest` | packages/backend/src/sftp/archive-service.ts:924 | Sorting nested directories by the length of their text visits the deepest first |
| `ArchiveNames.StripsItsExtension` | packages/backend/src/sftp/archive-service.ts:136-167 | For every stem and every recognised extension: the format is detected and stripping gives the stem back, or `archive` when the stem is empty |
| `ArchiveNames.EveryExtension` | packages/backend/src/sftp/archive-service.ts:136-147 | The nine extensions and the formats they announce, whatever stands before them |
| `ArchiveNames.OnlyExtensionsStrip` | packages/backend/src/sftp/archive-service.ts:136-167 | Case does not matter, and a name without such an extension has no format and is kept whole |
| `ArchiveNames.StaysInsideIff` | packages/backend/src/sftp/archive-service.ts:663-704 | The exact condition on the archive's base name: every place a commit named after the archive may rename to lies inside the target directory if and only if the stripped name is neither `.` nor `..`, otherwise none does; a merge onto the named directory stays inside if and only if it is not `..` |
| `ArchiveNames.RenameIsConfinedIff` | packages/backend/src/sftp/archive-service.ts:663-674 | For every state of the host: renaming the staging directory to the first free path for the archive's name changes only the target directory if and only if the name is neither `.` nor `..` |
| `ArchiveNames.DottedArchivesEscape` | packages/backend/src/sftp/archive-service.ts:153-167 | The escapes: `...zip` leads to the parent of the target directory and `..zip` to the target directory itself, with no place inside it; `.zip` becomes `archive` |
| `ArchiveNames.MergedIntoTheParent` | packages/backend/src/sftp/archive-service.ts:696-704 | Overwriting through `...zip` merges into the parent: an entry not called like the target directory is merged outside it, and if it changes anything, something outside has changed |
| `ArchiveNames.FirstFreeInside` | packages/backend/src/sftp/archive-service.ts:1629-1638 | For a child of a directory the first free path is the first free name in that directory |
| `ArchivePlacement.FirstFreeIsLeast` | packages/backend/src/sftp/archive-service.ts:1629-1638 | The name itself when free, else the one with the least free number from 2 to 9999, and none exactly when all of them are taken |
| `ArchivePlacement.NumberedIs` | packages/backend/src/sftp/archive-service.ts:1634 | A numbered name is the name, a space and the number in base ten between parentheses |
| `ArchivePlacement.OneResult` | packages/backend/src/sftp/archive-service.ts:660-747 | Smart extraction and extraction into a named directory have one result whatever the archive holds, extraction in place one for each entry, and no other name appears |
| `ArchivePlacement.FreeFromIsLeast` | packages/backend/src/sftp/archive-service.ts:1633-1637 | From any number on, the numbered name chosen is the least free one |
| `ArchivePlacement.KeepBothConserves` | packages/backend/src/sftp/archive-service.ts:720-734 | Keep-both conserves everything: earlier entries unchanged, each staged entry unchanged at a place of its own that was free, nothing else new; also when a numbered name equals the name of another staged entry |
| `ArchivePlacement.FreeNamesAreKept` | packages/backend/src/sftp/archive-service.ts:720-726 | When no staged name is taken every staged entry keeps its name |
| `ArchivePlacement.KeepBothGoesOn` | packages/backend/src/sftp/archive-service.ts:727-731 | When all staged entries can be placed, the next one can, whatever was placed before it |
| `ArchivePlacement.KeepBothStep` | packages/backend/src/sftp/archive-service.ts:720-734 | Placing names one after another composes, as the loop does it |
| `ArchivePlacement.KeepBothLosesNothing` | packages/backend/src/sftp/archive-service.ts:660-747 | In every destination mode a commit answered keep-both changes and hides no entry that was there, and all results are new and distinct |
| `ArchiveCommit.CommitKeepsOthers` | packages/backend/src/sftp/archive-service.ts:660-747 | A commit, complete or failed part way, changes no entry that was there, except when overwriting those a staged name, or the archive's, stands for |
| `ArchivePlacement.CommitStep` | packages/backend/src/sftp/archive-service.ts:720-743 | Changing one staged entry and one entry beside the staging directory is one change of the target directory and of nothing else |
| `ArchiveService.ArchiveOperation.FindAvailablePath` | packages/backend/src/sftp/archive-service.ts:1629-1638 | For every path: the path itself when free, else its first free numbered sibling; an error when all are taken or the host does not answer |
| `ArchiveService.ArchiveOperation.SubmitWhole` | packages/backend/src/sftp/archive-service.ts:666-674 | The staging directory takes a free name beside it, or nothing changes |
| `ArchiveService.ArchiveOperation.SubmitEntry` | packages/backend/src/sftp/archive-service.ts:720-743 | A staged entry lands under its own name when free, numbered under keep-both, and merged otherwise; keep-both failures change nothing, merge failures keep the overlay |
| `ArchiveService.ArchiveOperation.SubmitEntries` | packages/backend/src/sftp/archive-service.ts:720-744 | All staged entries: under keep-both the result of placing them one by one, otherwise the overlay of the target directory and the staged tree; part way through nothing is lost in either case, and entries no staged name stands for are as they were |
| `ArchiveService.ArchiveOperation.FindConflicts` | packages/backend/src/sftp/archive-service.ts:706-715 | Exactly the staged names that the target directory already has, in order |
| `ArchiveService.ArchiveOperation.SubmitUnique` | packages/backend/src/sftp/archive-service.ts:666-674 | For every archive name, `.` and `..` included: the staging directory is renamed to the first free path the name leads to, or nothing changes; for ordinary names this keeps the contract of a commit |
| `ArchiveService.ArchiveOperation.SubmitNamed` | packages/backend/src/sftp/archive-service.ts:676-704 | The directory named after the archive: moved when free, else by the answer cancelled, kept beside or merged; a failed merge still overlays to the intended result and leaves all other entries alone |
| `ArchiveService.ArchiveOperation.SubmitListed` | packages/backend/src/sftp/archive-service.ts:706-746 | Asks before anything changes when a name is taken; afterwards the staging directory is gone |
| `ArchiveService.ArchiveOperation.CommitExtractedEntries` | packages/backend/src/sftp/archive-service.ts:653-747 | When the archive strips to an ordinary name: nothing outside the target directory changes; answering cancel, or failing before the first submission, changes nothing; success is exactly the outcome of the chosen mode and answer; a commit that failed part way has kept what was there or overlays to the same result, in every mode; on a host that grants requests, undisturbed, it succeeds unless cancelled at the prompt or out of free names |
| `ArchiveService.ArchiveOperation.PerformTemporaryPathCleanup` | packages/backend/src/sftp/archive-service.ts:912-948 | When it reports success after an operation that can be undone, the remote tree is the starting tree, and on a host that grants requests it does report success, also for a cancelled operation; paths apart from the temporary entries and not leading to a provisional directory are never touched |
| `ArchiveService.ArchiveOperation.RemoveTemporaryPaths` | packages/backend/src/sftp/archive-service.ts:914-923 | Success clears every registered path, newest first; success or not, nothing apart from them changes |
| `ArchiveService.ArchiveOperation.RemoveProvisionalDirectories` | packages/backend/src/sftp/archive-service.ts:924-947 | Removes the directories made for the operation, deepest first, when each is empty in its turn; nothing that does not lead to one of them is touched |
| `ArchiveService.ArchiveOperation.FindMissingDirectories` | packages/backend/src/sftp/archive-service.ts:1476-1495 | The missing directories along the path, shallowest first; a non-directory on the way is an error |
| `ArchiveService.ArchiveOperation.EnsureRemoteDirectory` | packages/backend/src/sftp/archive-service.ts:1469-1515 | On success all directories along the path exist and nothing else changed; at every point exactly the directories made are registered, and removing them gives back the starting tree; it succeeds on a host that grants requests, undisturbed, unless a non-directory is in the way |
| `ArchiveService.ArchiveOperation.StageMembers` | packages/backend/src/sftp/archive-service.ts:592-645 | Expansion and extraction leave traces only at registered paths; afterwards only the staging directory is registered |
| `ArchiveService.ArchiveOperation.RunExtraction` | packages/backend/src/sftp/archive-service.ts:573-650 | Until the commit begins the whole operation can be undone; success leaves the directories along the target path, the committed entries, and nothing else; cancelling at the prompt begins nothing; however it ends nothing apart from the target directory changed, nor any entry of it unless the answer was to overwrite and a staged name, or the archive's, stands for it |
| `ArchiveService.ArchiveOperation.RunCompression` | packages/backend/src/sftp/archive-service.ts:530-570 | Failure before the final rename can be undone; success adds exactly one entry under a name that was free |
| `ArchiveService.ArchiveOperation.RunOperation` | packages/backend/src/sftp/archive-service.ts:465-527 | Whenever nothing was committed and cleanup reports success, the remote tree is exactly the tree found at the start; on a host that grants requests it does, cancelled or not; success implies a successful cleanup; however an extraction, its commit and its cleanup end, every path apart from the target directory is as before, and so is every entry that was in it, except under an overwriting commit those a staged name, or the archive's, stands for |
| `Socks5.ParseSocks5ConnectRequest` | packages/backend/src/port-forward/socks5.ts:67-133 | The offset-moving parser computes the decision function on the buffer, and the host it hands on is the dotted decimal or colon-separated hexadecimal text of exactly the address bytes, or exactly the bytes of the name |
| `Socks5.EncodedConnects` | packages/backend/src/port-forward/socks5.ts:67-133 | Any IPv4, IPv6 or non-empty domain target with port 1 to 65535, encoded per RFC 1928 section 4 and followed by anything, is read back under its usual name and exactly its bytes are consumed |
| `Socks5.IPv4TextIsDotted` | packages/backend/src/port-forward/socks5.ts:85-91 | Split at dots the text has four base-ten numbers without leading zeros, whose values are the four bytes |
| `Socks5.IPv6TextIsColoned` | packages/backend/src/port-forward/socks5.ts:106-114 | Split at colons it has eight lower-case base-sixteen numbers without leading zeros, each the value of its two bytes |
| `Socks5.RefusalCodes` | packages/backend/src/port-forward/socks5.ts:67-133 | The reply codes of RFC 1928 section 6, exactly: 1 for another version, 7 for another command, 8 for another address type, and 4 only for port zero or an empty name |
| `Socks5.PortZeroIsRefused` | packages/backend/src/port-forward/socks5.ts:118-133 | A request for port zero is refused with code 4, whatever its target |
| `Socks5.EmptyNameIsRefused` | packages/backend/src/port-forward/socks5.ts:93-133 | A request for an empty name is refused with code 4, whatever its port |
| `Socks5.ResponseIsLaidOut` | packages/backend/src/port-forward/socks5.ts:142-144 | A reply has the layout of a request for address and port zero, with the code in place of the command |
| `Socks5.ConnectIsEncoded` | packages/backend/src/port-forward/socks5.ts:67-133 | Conversely a buffer connects only when it starts with the encoding of the target and port reported |
| `Socks5.PrefixNeedsMore` | packages/backend/src/port-forward/socks5.ts:67-71 | Every strict prefix of a request answers need-more-data |
| `Socks5.ParsedStable` | packages/backend/src/port-forward/socks5.ts:67-133 | Once decided, more bytes change neither verdict nor code, host and port |
| `Socks5.LongEnoughIsDecided` | packages/backend/src/port-forward/socks5.ts:95-104 | 262 bytes always suffice for a decision |
| `Socks5.TextDeterminesAddress` | packages/backend/src/port-forward/socks5.ts:85-114 | The printed IPv4 text, and the printed IPv6 text, determine the address bytes |
| `Socks5.ReadSegments` | packages/backend/src/port-forward/socks5.ts:110-114 | The loop prints the eight big-endian groups in hexadecimal |
| `Socks5.HandleSocks5Greeting` | packages/backend/src/port-forward/socks5.ts:39-59 | Version and offered methods decide between rejection, waiting and acceptance, and fix the two-byte reply |
| `DynamicForward.DynamicConnection.OnData` | packages/backend/src/port-forward/session-service.ts:588-630 | After each chunk stage, replies and target are those of the whole byte stream received so far |
| `DynamicForward.DynamicConnection.Feed` | packages/backend/src/port-forward/session-service.ts:588-633 | A connection listens until it is decided; what it did is the judgement of the bytes of the chunks taken |
| `DynamicForward.JudgedStable` | packages/backend/src/port-forward/session-service.ts:588-630 | A decision on a stream is never revised by later bytes |
| `DynamicForward.ChunkingDoesNotMatter` | packages/backend/src/port-forward/session-service.ts:584-630 | Any two ways to cut the same client stream give the same decision, replies, host and port, and the same bytes after the request |
| `DynamicForward.WellFormedOpens` | packages/backend/src/port-forward/session-service.ts:588-630 | Greeting offering no-authentication, then a request, then anything, opens exactly that target with the rest as initial data |
| `DynamicForward.OnlyWellFormedOpens` | packages/backend/src/port-forward/session-service.ts:588-630 | An opened connection received exactly greeting, request and initial data, one after the other |
| `DynamicForward.OtherGreetingsAreRefused` | packages/backend/src/port-forward/session-service.ts:588-605 | A greeting of another version, or without the no-authentication method, is answered 5, 255 and ends the connection |
| `DynamicForward.RefusedRequestsAreTold` | packages/backend/src/port-forward/session-service.ts:606-625 | A refused request is answered with its code after the accepted greeting, and ends the connection |
| `DynamicForward.UnfinishedIsWaitedFor` | packages/backend/src/port-forward/session-service.ts:588-612 | Every strict prefix of a greeting, and of a request after an acceptable greeting, is waited for, with nothing more sent than the greeting's answer |
| `DynamicForward.WaitingIsBounded` | packages/backend/src/port-forward/session-service.ts:588-620 | An undecided connection has buffered fewer than 519 bytes |
| `NumberText.PrintInjective` | packages/backend/src/port-forward/socks5.ts:89-113 | Different numbers print differently in base ten and sixteen |
| `NumberText.JoinedInjective` | packages/backend/src/port-forward/socks5.ts:89-114 | Numbers joined by a separator are determined by the text |
| `OperationGuard.EveryRunIsSound` | packages/backend/src/sftp/operation-guard.ts:151-284 | Under every interleaving of result, rejection, progress, both timers, transport abort and passing time: unsettled, neither deadline has passed; the signal is aborted exactly on failure; the timeout hook ran exactly when a timer won; settled, no timer is armed and the transport is no longer observed |
| `OperationGuard.OutcomeIsFirstDecision` | packages/backend/src/sftp/operation-guard.ts:180-242 | Resolved if and only if success is the first event that is neither progress nor passing time, rejected with the operation's error, a timeout of that kind or the closed transport if and only if that is; the outcome of timeouts and the closed transport is unknown exactly for mutations |
| `OperationGuard.TimersFollowProgress` | packages/backend/src/sftp/operation-guard.ts:225-271 | While nothing has decided, the idle timer is set for its limit after the last progress mark and the absolute timer for its limit after the start; afterwards neither is set and the transport is not observed |
| `OperationGuard.FirstSettlementWins` | packages/backend/src/sftp/operation-guard.ts:180-207 | The guard settles once, with the first event that can settle it |
| `OperationGuard.AbortedNeverStarts` | packages/backend/src/sftp/operation-guard.ts:262-266 | With the transport already aborted the guard fails at once, nothing is started and nothing later matters |
| `OperationGuard.UnsettledIsBounded` | packages/backend/src/sftp/operation-guard.ts:269-271 | Time beyond the absolute limit is reached only settled |
| `OperationGuard.GuardedOperation.constructor` | packages/backend/src/sftp/operation-guard.ts:262-271 | Both timers armed and the operation started, or settled at once without starting |
| `OperationGuard.GuardedOperation.SettleSuccess` | packages/backend/src/sftp/operation-guard.ts:180-189 | Resolves, without aborting and without the timeout hook, unless settled before; then nothing changes |
| `OperationGuard.GuardedOperation.OperationFails` | packages/backend/src/sftp/operation-guard.ts:275-282 | Rejects with the operation's error and aborts, unless settled before |
| `OperationGuard.GuardedOperation.SettleFailure` | packages/backend/src/sftp/operation-guard.ts:197-207 | Settles with the failure and aborts the signal unless settled before; tells whether it won |
| `OperationGuard.GuardedOperation.HandleTimeout` | packages/backend/src/sftp/operation-guard.ts:225-242 | The hook runs once, and only for the timer that settled |
| `OperationGuard.GuardedOperation.HandleTransportAbort` | packages/backend/src/sftp/operation-guard.ts:214-216 | The transport failure, with the outcome unknown for a mutation, unless settled before |
| `OperationGuard.GuardedOperation.MarkProgress` | packages/backend/src/sftp/operation-guard.ts:249-260 | The idle deadline restarts from now, only while unsettled |
| `OperationGuard.RunGuarded` | packages/backend/src/sftp/operation-guard.ts:143-149 | Accepted exactly when both limits are finite and positive, and then in the opening state |
| `AddColumn.ApplyAddColumnStatements` | packages/backend/src/db/prisma.ts:625-649 | Each table's columns are read once; success means every statement was applied or already present and none ran into an existing column, failure leaves a prefix applied |
| `AddColumn.CacheIsBelow` | packages/backend/src/db/prisma.ts:630-648 | The cache never shows a column the table lacks |
| `AddColumn.SameFoldIff` | packages/backend/src/db/prisma.ts:630-648 | Two names are one to SQLite exactly when they differ at most in the case of ASCII letters |
| `AddColumn.CacheAgrees` | packages/backend/src/db/prisma.ts:630-648 | With one spelling per table the cache equals the real columns of every table loaded |
| `AddColumn.ColumnsAreUnion` | packages/backend/src/db/prisma.ts:625-649 | Afterwards each table has exactly its earlier columns and those named for it |
| `AddColumn.CompletedThenRerun` | packages/backend/src/db/prisma.ts:616-648 | Running a completed migration again runs no statement and changes nothing |
| `AddColumn.CacheShows` | packages/backend/src/db/prisma.ts:630-648 | For every migration: what the cache shows of a table, read off the initial columns and the statements |
| `AddColumn.NoneRunsIntoExistingIff` | packages/backend/src/db/prisma.ts:639-646 | The exact condition, for every migration and database: no statement runs into an existing column if and only if each finds its column shown, or no column of that name among the initial and earlier named ones |
| `AddColumn.OneSpellingPerTable` | packages/backend/src/db/prisma.ts:639-646 | With one spelling per table the condition is that no statement respells a column |
| `AddColumn.TwoSpellingsDefeatTheCache` | packages/backend/src/db/prisma.ts:630-646 | Three statements on a table with one column that spell it two ways: the last one runs although its column was just added |
| `AddColumn.TwoSpellingsMayBeHarmless` | packages/backend/src/db/prisma.ts:630-646 | Two spellings alone do no harm: two statements that each add a column of their own |
| `SqliteIdentifiers.UnescapeOfEscape` | packages/backend/src/db/prisma.ts:310-312 | Unescaping undoes escaping, for every name |
| `SqliteIdentifiers.EscapeOfUnescape` | packages/backend/src/db/prisma.ts:548-550 | Escaping undoes unescaping exactly for text whose quotes come in pairs |
| `SqliteIdentifiers.StatementIsRead` | packages/backend/src/db/prisma.ts:539-569 | A generated ADD COLUMN statement is read back as its table and column, whatever characters their names contain |
| `SqliteIdentifiers.WrittenIsRead` | packages/backend/src/db/prisma.ts:539-569 | Every statement of the shape ALTER TABLE ".." ADD COLUMN "..", in any case and with any white space, set off from what follows, is read as its unescaped names |
| `SqliteIdentifiers.ReadWasWritten` | packages/backend/src/db/prisma.ts:539-569 | No other statement is read: what is read has that shape, with quotes inside the names in pairs |
| `SqliteIdentifiers.ParseAddColumns` | packages/backend/src/db/prisma.ts:577-593 | A parsed list exactly when there is a statement and all of them are ADD COLUMN statements, in order |
| `PosixShell.QuotedIsOneWord` | packages/backend/src/sftp/archive-service.ts:128 | Wherever shell source is outside quotes, a quoted value appends exactly the value to the current word, triggers no expansion and ends outside quotes (POSIX.1-2017 XCU 2.2.1, 2.2.2) |
| `PosixShell.QuotedAlone` | packages/backend/src/remote-bootstrap/service.ts:854-856 | Alone a quoted value is one word, the value itself |
| `PosixShell.NestedQuoting` | packages/backend/src/remote-bootstrap/service.ts:564-569 | A script that quotes a value, quoted again as an argument: the outer shell passes the script on unchanged and the inner one reads the value |
| `ArchiveCommands.CommandRead` | packages/backend/src/sftp/archive-service.ts:1048-1088 | A command of fixed words, operators and quoted values is read as exactly those |
| `ArchiveCommands.ExpansionCommandRead` | packages/backend/src/sftp/archive-service.ts:1080-1088 | Whatever the two paths contain, the expansion command is read as the tool, the archive as one word and one redirection to the output |
| `ArchiveCommands.CompressionCommandRead` | packages/backend/src/sftp/archive-service.ts:1048-1077 | Whatever the directory and names contain, the compression command is read as intended: the same words, nothing expanded, every source one word starting with `./` |
| `ArchiveTools.CompressionCommandRuns` | packages/backend/src/sftp/archive-service.ts:1043-1077 | What the command does, by an interpreter of the tools: in the wanted directory the tool of the format at the level asked for leaves an archive of exactly the sources in the temporary file, the intermediate tar is gone, no other file is touched |
| `ArchiveTools.ExpansionUndoesCompression` | packages/backend/src/sftp/archive-service.ts:1080-1088 | The expansion command run on what the compression command of the same format left gives back exactly the tar of the sources |
| `FishShell.QuotedIsRead` | packages/backend/src/remote-bootstrap/service.ts:864-866 | Fish reads a value quoted by the two replacements back exactly and stops after it |

## Left out

- Synchronous calls back into the scheduler from an abort hook or a cancellation listener, and the `isDispatching` flag that guards against them: every public method runs alone.
- One time value per public scheduler call stands for the several clock readings the call makes.
- Failure message text, snapshots handed out as copies, `getTask`, `listTasks`, logging and audit records.
- TaskClaims.DistinctByLength: leaves the order of claims of equal length open, which the source fixes by locale.
- TaskScheduler.SftpTaskScheduler.WaitForIdle: a waiter is a number, and its promise resolving is its move to the woken ones.
- Encryption, headers and SQL are abstract in the migration: a file is absent, empty, damaged, plaintext or encrypted, with a log overlay; other processes do not touch the files, and a checkpoint is not held up by another connection.
- A remote request whose success is hidden by a timeout: a request that does not report success has no effect. There is one actor per remote tree.
- ArchiveService.ArchiveOperation.EnsureRemoteDirectory: the branch that accepts a directory made by someone else after a failed mkdir needs a second actor and is not modelled; symbolic links in the middle of the path are not followed.
- ArchiveService.ArchiveOperation.FindMissingDirectories: a path is looked up through directories only, so a target below a linked directory, which the remote host would resolve, is refused here.
- ArchiveService.ArchiveOperation.SubmitNamed: for archives that strip to `.` or `..` the merge of the staging directory onto a directory that contains it is stated entry by entry (ArchiveNames.MergedIntoTheParent), not as a whole.
- Random names are parameters required to be distinct and unused, also by archive members.
- Checks that only read (archive header, member names, staged links, source types, tool probing) are an arbitrary yes or no before the step they guard; `appendBounded`, capabilities and operation retention are not modelled.
- ArchiveService.ArchiveOperation.RunOperation: after an overwriting commit that failed part way, what stands under the replaced names is stated by CommitExtractedEntries only, before cleanup removes what is left in staging.
- Socks5.ParseSocks5ConnectRequest: a domain stays as its bytes, because decoding them as UTF-8 would only add a library function.
- For rejected requests the number of consumed bytes depends on the buffer and is not compared across chunkings; bytes arriving between the last data event and the pipe, DNS, sockets, timeouts and connection counting are not part of the model.
- Remote and local port forwards, start, stop and close races, HTTP CONNECT reading and bootstrap status parsing.
- OperationGuard.EveryRunIsSound: timers fire on time.
- SqliteIdentifiers.StatementIsRead: of the white space the statement pattern accepts, the ASCII characters are modelled; splitting a migration file into statements, the migration ledger and the non-transactional path are not.
- ArchiveTools.CompressionCommandRuns: what a compressor makes of a file is a term naming tool, option and input; whether a tool accepts an option is outside the model.
- PosixShell.QuotedIsOneWord: the lexer marks expansions instead of performing them, and here-documents and comments are not part of it.
- The fixed script texts of the bootstrap launcher and wrappers, base64 and JSON escaping; what matters about them is that every inserted value is quoted.
- HTTP routing, renderer, menus, settings, generated contracts and validators would only add single-branch facts.
