# ServerHubX: models and proofs

ServerHubX is a hosting panel. These Dafny files model the parts of it that hold state
machines, protocols and text editors, and prove what their code promises, or the exact
condition under which it does.

Each file is one component. A component has a specification part (datatypes, functions
for single steps, predicates over whole runs), lemmas about it, and, where the source
keeps mutable state, a class whose methods follow the source and are proved equal to the
specification's steps. Repositories, Redis and the file system are maps; time is a number
passed into each step; calls into the outside world (commands, queries, copies) are
parameters that say whether they worked. Where a property is about interleaving, an
`await` is the border between two steps.

| file | component |
|---|---|
| Text, NumberTexts, ConfLines | strings as JavaScript handles them; numbers in print and read back; `KEY = "value"` lines |
| Rollback, TransactionHistory, TransactionManager, TransactionRuns, TransactionOverlap | the transaction manager: one rollback, one transaction's history, many transactions, one among many, overlapping calls |
| SystemUserCreation | the account-creating saga that runs inside a transaction |
| RefreshQueue | the token-refresh queue of the API client |
| AlertEngine, AlertRaces | alert rules, breach timers and alert instances, round by round and at the awaits |
| CsfPorts, LfdConfig | firewall port lists; login-failure settings and the ignore list |
| SshdConfig, SshSecurity | sshd_config editing; installing, checking, reverting, moving the port |
| TerminalSessions | terminal sessions from creation to shutdown |
| AuthTokens, AuthRaces, Lockout | refresh and reset tokens, call by call and at the awaits; account lockout |
| SettingsCache, SettingsRaces | settings and their cache, call by call and at the awaits |
| Retention, CommandOutput, QuietHours | backup retention, output buffers and retries, quiet hours |

## Where the code does less than one might expect

Each of these is a lemma with the exact condition, or a concrete run, in the files named.

- Two snapshots of one base name in the same millisecond share a backup file (`ComesBackIff`,
  `NamesMatter`, `CollidingBackups`).
- Overlapping rollbacks of one transaction run its undo actions twice; actions registered
  during a rollback are lost (`RunsAreStarts`, `OverlapRunsTwice`).
- A failed account creation removes a home directory that existed before it, leaves the
  quota, and does not notice undo commands that fail; a failing audit entry after the save
  leaves the row without an account (`HomeRestoredIff`, `SagaUndone`, `SagaKept`, `Create`).
- A refresh call answered 401 enters its own queue and blocks all later requests
  (`DrainsIffNot401`, `StuckForever`).
- An acknowledged alert is not resolved by a quiet evaluation (`StatusOnlyAdvances`). Rounds that
  overlap create an alert each (`FiringBound`, `FiringBoundReached`), and an acknowledgement that
  overlaps a resolution undoes it (`ResolvedForGoodIff`, `AcknowledgedAfterResolved`).
- A port list in single quotes comes out with mixed quotes (`QuotesMatchIff`); a denied
  port in another spelling stays allowed (`DenyLeavesOtherSpellings`). A port with a fraction,
  which the request validation accepts, opens its whole part, which cannot be closed as a number
  then (`AllowedReadsBackIff`, `FractionStays`); as the port of sshd it reads back as its whole
  part, too (`NewPortAsGivenIff`).
- Removing an ignored address removes every line that begins with it, and leaves the further lines
  of its comment (`IgnoreThenRemoveIff`, `TwoLineComment`), which can be entries of their own
  (`HiddenEntry`); an IPv6 address with a zone is not listed at all (`NewEntry`);
  a login-failure setting without a line cannot be set, and a number with a fraction loses it
  on reading and leaves it in the file (`UpdateThenGet`, `ReadsBackIff`, `LeftoverStays` in LfdConfig).
- The port is read without regard to case but replaced only in one spelling (`NewPortReadsIff`).
- A failing `cp` goes unnoticed: success is then reported for an unchanged file, and a
  revert may not happen (`SshSecurityService.UpdateSecuritySettings`).
- A session whose first save is pending at shutdown is left running (`ShutdownLeaksIff`).
- A reset that breaks off after the password change leaves its token usable (`SpentIff`); resets
  that overlap all use the token, and a login during a reset survives it (`UsesAreReaders`,
  `TokensExact`, `LoginDuringReset`).
- Of login attempts the lockout lets through as many as overlap, once per lock (`OverlapBound`,
  `OverlapBoundIsReached`).
- A setting stored under a type that does not fit its value reads differently before and
  after the cache is reloaded (`SetSurvivesReloadIff`); so does an object JSON does not give back
  (`ObjectCoherentIff`).
- A read of a setting that is overtaken by a write leaves the old value in the cache (`StaleIff`).
- With hours printed from 1 to 24, quiet hours are wrong in the hour after midnight (`Printed24Iff`);
  so are quiet hours given without a leading zero (`UnpaddedCuts`).
- `executeWithRetry` with no attempt allowed returns no result, although its type says it does.

## Model

| member | source | states |
|---|---|---|
| `Rollback.UndoErrorsCounted` | backend/src/core/rollback/transaction-manager.service.ts:121-137 | The error count of the undo phase is the number of actions that threw, each judged in the world in which it ran; no failure keeps a later one from running |
| `Rollback.RestoreErrorsCounted` | backend/src/core/rollback/transaction-manager.service.ts:139-156 | The same for the restoring of snapshots |
| `Rollback.RestoreErrorsExact` | backend/src/core/rollback/transaction-manager.service.ts:139-156 | In terms of the world before and the faults alone: the snapshots whose backup was there, was not used up by an older one, and failed to be copied or unlinked |
| `Rollback.RemovalErrorsExact` | backend/src/core/rollback/transaction-manager.service.ts:60-68 | The undo actions `snapshotFile` registers throw exactly where the path was there, no newer action had removed it, and the unlink fails |
| `Rollback.RollBackErrorsExact` | backend/src/core/rollback/transaction-manager.service.ts:112-167 | The error count of a whole rollback: the actions that threw and the snapshots that went wrong |
| `Rollback.CleanRollBack` | backend/src/core/rollback/transaction-manager.service.ts:112-167 | No error where no action throws and all calls work |
| `Rollback.CleanupUnlinks` | backend/src/core/rollback/transaction-manager.service.ts:92-104 | A commit leaves no backup whose unlinking works once, and every other file, account and quota |
| `Rollback.EveryUndoRuns` | backend/src/core/rollback/transaction-manager.service.ts:121-137 | Whatever throws, every registered action runs once, newest first |
| `Rollback.EveryRestoreRuns` | backend/src/core/rollback/transaction-manager.service.ts:139-156 | And every snapshot is attempted, oldest first |
| `Rollback.LifoReturnsToStart` | backend/src/core/rollback/transaction-manager.service.ts:121-137 | If each action inverts the step it was registered after, a rollback after any number of steps leads back to the first world, without errors |
| `Rollback.BackupAfter` | backend/src/core/rollback/transaction-manager.service.ts:139-146 | A backup is there until the first snapshot naming it has been restored without a fault, which uses it up |
| `Rollback.RestoreAllExact` | backend/src/core/rollback/transaction-manager.service.ts:139-156 | For any list of snapshots, names repeated or missing, and any faults: a path ends with what the backup of its newest snapshot that still finds one held, or with the residue of that copy; other paths stay |
| `Rollback.RestoringIsOnlyFiles` | backend/src/core/rollback/transaction-manager.service.ts:139-156 | Restoring touches neither accounts nor quotas |
| `Rollback.RollBackExact` | backend/src/core/rollback/transaction-manager.service.ts:112-167 | A whole rollback, undo actions then snapshots, for any names and faults: a path gets what the backup of its newest snapshot that still finds one held, any other path is where the undo actions left it |
| `TransactionHistory.BackupsOfOneTransaction` | backend/src/core/rollback/transaction-manager.service.ts:70-73 | A path is a backup of at most one transaction: names of different (equally long) ids never collide |
| `TransactionHistory.BackupPathInjective` | backend/src/core/rollback/transaction-manager.service.ts:70-73 | Within a transaction a backup name determines base name and time stamp |
| `TransactionHistory.BackupNames` | backend/src/core/rollback/transaction-manager.service.ts:70-73 | The base name is what follows the last slash; how a backup's name is put together |
| `TransactionHistory.SnapshotTable` | backend/src/core/rollback/transaction-manager.service.ts:57-83 | Along every run each backup holds what the newest snapshot naming it saw, names repeated or not |
| `TransactionHistory.RollbackAfterRun` | backend/src/core/rollback/transaction-manager.service.ts:57-83 | After any run of snapshots, registrations and writes by anybody, a rollback gives each path the content of the snapshot the names assign to it, and leaves other paths as the undo actions leave them |
| `TransactionHistory.NewestComesBack` | backend/src/core/rollback/transaction-manager.service.ts:57-83 | Where the names let it come back, a path has the content at its newest snapshot |
| `TransactionHistory.MissingStaysAbsent` | backend/src/core/rollback/transaction-manager.service.ts:60-68 | A path snapshotted, any number of times, only while missing is absent after the rollback, whatever the run did to it |
| `TransactionHistory.SnapshotOnceRestores` | backend/src/core/rollback/transaction-manager.service.ts:57-83 | A path snapshotted once comes back exactly as the snapshot saw it, present or absent |
| `TransactionHistory.TableOfRun` | backend/src/core/rollback/transaction-manager.service.ts:77-80 | The snapshot list of any run is determined by paths, base names and stamps of the snapshots that copied something |
| `TransactionHistory.ComesBackIff` | backend/src/core/rollback/transaction-manager.service.ts:70-73 | The names let a path come back exactly when, of the snapshots with the base name and in the millisecond of its newest one, the first is its own and the newest one the last, and no snapshot of the path in between is the first of its own name |
| `TransactionHistory.ForwardComesBackIff` | backend/src/core/rollback/transaction-manager.service.ts:70-73 | While the clock does not go back the last part always holds |
| `TransactionHistory.DistinctStampsSuffice` | backend/src/core/rollback/transaction-manager.service.ts:70-73 | In particular when the snapshots pairwise differ in base name or millisecond |
| `TransactionHistory.NamesMatter` | backend/src/core/rollback/transaction-manager.service.ts:70-73 | Conversely, where the names do not let it, some run with these snapshots does not give the path its content back |
| `TransactionHistory.CollidingBackups` | backend/src/core/rollback/transaction-manager.service.ts:70-73 | Two files of one base name in one millisecond share a backup: the first is given the second one's content, the second is not restored |
| `TransactionManager.ExactlyOnceOrNever` | backend/src/core/rollback/transaction-manager.service.ts:85-182 | Over any interleaving of transactions with arbitrarily failing actions: an action has run exactly once if its transaction rolled back, never if it committed or is still active; active and finished ids are disjoint |
| `TransactionManager.FinishedForGood` | backend/src/core/rollback/transaction-manager.service.ts:85-167 | A finished id keeps its ending and is never active again |
| `TransactionManager.CleanupExact` | backend/src/core/rollback/transaction-manager.service.ts:200-222 | The cleanup leaves active exactly the transactions not over age, even when their rollbacks fail, and returns the number of clean rollbacks |
| `TransactionManager.CleanCleanup` | backend/src/core/rollback/transaction-manager.service.ts:200-222 | Where nothing goes wrong the cleanup counts every transaction over age |
| `TransactionManager.CommitExact` | backend/src/core/rollback/transaction-manager.service.ts:85-110 | A commit takes the backups that can be unlinked and the transaction itself, and changes nothing else |
| `TransactionManager.StartExact` | backend/src/core/rollback/transaction-manager.service.ts:34-50 | A start adds a transaction with nothing recorded |
| `TransactionManager.SnapshotExact` | backend/src/core/rollback/transaction-manager.service.ts:57-83 | What a snapshot records and copies, for a missing path, a regular file, a failing copy and a directory |
| `TransactionManager.CleanAbort` | backend/src/core/rollback/transaction-manager.service.ts:112-167 | A rollback in which nothing throws ends without an error |
| `TransactionManager.TransactionManagerService.StartTransaction` | backend/src/core/rollback/transaction-manager.service.ts:34-50 | A fresh transaction joins the active ones, all others as before |
| `TransactionManager.TransactionManagerService.AddRollbackAction` | backend/src/core/rollback/transaction-manager.service.ts:52-55 | The action is appended to its own transaction; an unknown id throws and changes nothing |
| `TransactionManager.TransactionManagerService.SnapshotFile` | backend/src/core/rollback/transaction-manager.service.ts:57-83 | The step of the specification for missing, regular and unreadable paths, and when it throws |
| `TransactionManager.TransactionManagerService.Commit` | backend/src/core/rollback/transaction-manager.service.ts:85-110 | Backups are removed as far as possible, the transaction leaves, a second commit throws |
| `TransactionManager.TransactionManagerService.RollbackTransaction` | backend/src/core/rollback/transaction-manager.service.ts:112-167 | World and error report are those of the specification's rollback; the transaction leaves whatever failed |
| `TransactionManager.TransactionManagerService.CleanupStaleTransactions` | backend/src/core/rollback/transaction-manager.service.ts:200-222 | The loop computes the specification's cleanup and its count |
| `TransactionRuns.BystanderStep` | backend/src/core/rollback/transaction-manager.service.ts:57-222 | Any step but a transaction's own snapshots, the stale cleanup included and whatever fails in it, leaves what the transaction has recorded and every path the others do not name as they are |
| `TransactionRuns.RunIsHistory` | backend/src/core/rollback/transaction-manager.service.ts:52-222 | Along every run of the manager in which the transaction stays active, its history, computed from the events it sees, is legal and agrees with the manager in world, actions and snapshots |
| `TransactionRuns.AbortRestoresNewest` | backend/src/core/rollback/transaction-manager.service.ts:112-167 | At the end of such a run an abort gives a path whose names let it come back the content of its newest snapshot |
| `TransactionRuns.AbortLeavesAbsent` | backend/src/core/rollback/transaction-manager.service.ts:112-167 | A path the transaction snapshotted only while missing is absent after the abort |
| `TransactionRuns.AbortRestores` | backend/src/core/rollback/transaction-manager.service.ts:112-167 | A path the transaction snapshotted once is after the abort as it was before that snapshot, with any number of other transactions snapshotting, committing, rolling back and being cleaned up in between |
| `TransactionRuns.AbortRestoresStart` | backend/src/core/rollback/transaction-manager.service.ts:112-167 | Snapshotted before its first write, the others working on other paths until then, it is as it was when the transaction began |
| `TransactionOverlap.RunsAreStarts` | backend/src/core/rollback/transaction-manager.service.ts:112-167 | At the awaits: an action runs as often as rollbacks were started after its registration, so exactly once for one rollback and never when registered during the only one |
| `TransactionOverlap.KnownIff` | backend/src/core/rollback/transaction-manager.service.ts:112-167 | The transaction is known exactly until a rollback or commit of it has ended |
| `TransactionOverlap.ClosedForGood` | backend/src/core/rollback/transaction-manager.service.ts:112-167 | From the end of any rollback or commit on, no rollback starts and nothing is registered: a second rollback can only overlap the first |
| `TransactionOverlap.OverlapRunsTwice` | backend/src/core/rollback/transaction-manager.service.ts:112-167 | Two overlapping rollbacks of one transaction run an action twice |
| `SystemUserCreation.HighestUid` | backend/src/modules/system-users/system-users.service.ts:484-497 | The maximum of the in-range UIDs in use, 999 if there is none |
| `SystemUserCreation.FindNextAvailableUid` | backend/src/modules/system-users/system-users.service.ts:473-506 | A UID in range above every database UID and not in use on the system; one above a used one or 1000; none exactly when that leaves the range |
| `SystemUserCreation.SagaUndone` | backend/src/modules/system-users/system-users.service.ts:103-117 | Whatever the commands did inside the home, the registered undo actions remove the account and the home tree and leave only the quota |
| `SystemUserCreation.UndoCommands` | backend/src/modules/system-users/system-users.service.ts:104-106 | A working `userdel` or `rm -rf` takes its tree, the former the account as well, and nothing else; neither ever throws |
| `SystemUserCreation.UserAddExact` | backend/src/modules/system-users/system-users.service.ts:92-98 | `useradd -m` adds the account, and the home with the skeleton where there was none |
| `SystemUserCreation.UidOfLine` | backend/src/modules/system-users/system-users.service.ts:487-491 | The UID of a passwd line is its third field; a line of fewer has none |
| `SystemUserCreation.SagaKept` | backend/src/modules/system-users/system-users.service.ts:103-117 | When the undoing `userdel` fails the account stays as it was, the quota too, and nothing outside the home changes |
| `SystemUserCreation.HomeRestoredIff` | backend/src/modules/system-users/system-users.service.ts:103-106 | The files come back as they were exactly when nothing existed under the home directory before |
| `SystemUserCreation.SystemUsersService.Create` | backend/src/modules/system-users/system-users.service.ts:57-173 | How a creation ends, exactly, for every outcome of its calls, and what it leaves: account with UID, shell and password, directories, start page, quota and row after a success; what the undo gives back, and what it does not, after a failure |
| `SystemUserCreation.SystemUsersService.CreateDirectoryStructure` | backend/src/modules/system-users/system-users.service.ts:519-560 | Each created directory has its removal registered; only the home changes |
| `SystemUserCreation.SystemUsersService.Provision` | backend/src/modules/system-users/system-users.service.ts:81-124 | Everything up to the row: either nothing happened, or the undo log matches what was done |
| `SystemUserCreation.SystemUsersService.Conclude` | backend/src/core/rollback/transaction-manager.service.ts:169-182 | Commit on success, rollback otherwise, at every point the saga can stop |
| `RefreshQueue.SettlingStep` | frontend/src/lib/api/client.ts:34-43 | The step in which the refresh settles settles each entry queued at that moment once, with that outcome, empties the queue and clears the flag; no other entry changes |
| `RefreshQueue.ProtocolSafety` | frontend/src/lib/api/client.ts:27-87 | In every reachable state: one leader at most, a waiting queue implies the flag, no request leads twice, no promise is settled twice, nobody waits unsettled without a refresh |
| `RefreshQueue.OnlySettlingSettles` | frontend/src/lib/api/client.ts:50-60 | No other step settles a promise |
| `RefreshQueue.DrainsIffNot401` | frontend/src/lib/api/client.ts:65-82 | The queue drains exactly when the refresh's answer is not itself a 401 |
| `RefreshQueue.ReplyDecides` | frontend/src/lib/api/client.ts:65-82 | By the refresh's answer: a new token resolves every queued promise with that token and sends the leader out again, an error rejects them and fails the leader, a 401 leaves all waiting; no other request changes |
| `RefreshQueue.SendDoes` | frontend/src/lib/api/client.ts:17-26 | A request that is sent is in flight and not retried |
| `RefreshQueue.FollowerQueues` | frontend/src/lib/api/client.ts:50-54 | A request answered 401 during a refresh joins the end of the queue with a promise of its own |
| `RefreshQueue.FollowerGoesOn` | frontend/src/lib/api/client.ts:51-82 | Over whole runs: a follower waits unchanged until its promise goes on, then goes out again after a new token and fails after an error |
| `RefreshQueue.SucceededIff` | frontend/src/lib/api/client.ts:45-87 | A request has succeeded exactly when some answer to it was no error |
| `RefreshQueue.FailedIff` | frontend/src/lib/api/client.ts:45-87 | It has failed exactly when an error other than 401, a 401 after its refresh, the error of its own refresh, or the rejection of its promise happened to it |
| `RefreshQueue.LedIff` | frontend/src/lib/api/client.ts:50-63 | It bears the retry mark exactly when it was once answered 401 with no refresh under way |
| `RefreshQueue.CanHappen` | frontend/src/lib/api/client.ts:45-87 | Which events are possible in a reachable state |
| `RefreshQueue.StuckForever` | frontend/src/lib/api/client.ts:50-60 | After a 401 on the refresh it never drains: the flag stays up, the leader pending, every queued promise unsettled, whatever else happens |
| `RefreshQueue.RunKeepsInv` | frontend/src/lib/api/client.ts:27-87 | The protocol invariant holds in every reachable state |
| `RefreshQueue.ApiClient.ProcessQueue` | frontend/src/lib/api/client.ts:34-43 | The loop settles all queued entries in order |
| `RefreshQueue.ApiClient.OnAnswer` | frontend/src/lib/api/client.ts:47-64 | The interceptor's step on a response |
| `RefreshQueue.ApiClient.OnRefreshAnswer` | frontend/src/lib/api/client.ts:65-83 | The interceptor's step on the refresh's response |
| `AlertEngine.FiringJustified` | backend/src/modules/monitoring/alert-engine.service.ts:66-83 | When an alert fires, some evaluation at least the duration earlier was breaching and so was every evaluation of the rule since |
| `AlertEngine.FiringsSpaced` | backend/src/modules/monitoring/alert-engine.service.ts:169-176 | Two firings of one rule are at least the cooldown apart |
| `AlertEngine.FiresIff` | backend/src/modules/monitoring/alert-engine.service.ts:51-83 | The exact firing condition in terms of the evaluation history: this evaluation breaches, the unbroken series is old enough, the last firing a cooldown ago, no instance firing |
| `AlertEngine.OperatorsAreTheOrder` | backend/src/modules/monitoring/alert-engine.service.ts:150-167 | The six operators are the order of the numbers: exclusive, complementary, monotone, with the threshold itself breaching where equality counts |
| `AlertEngine.FiresInNumbers` | backend/src/modules/monitoring/alert-engine.service.ts:51-83 | The firing condition in numbers for each operator |
| `AlertEngine.FiringLeaves` | backend/src/modules/monitoring/alert-engine.service.ts:188-213 | What a firing adds, and that nothing else changes |
| `AlertEngine.UpdateExact` | backend/src/modules/monitoring/monitoring.service.ts:73-82 | Editing a rule replaces its parameters and keeps its history |
| `AlertEngine.ResolvedIff` | backend/src/modules/monitoring/alert-engine.service.ts:219-236 | Over whole runs: an instance is resolved exactly when a user or a quiet evaluation resolved it |
| `AlertEngine.AcknowledgedIff` | backend/src/modules/monitoring/monitoring.service.ts:144-171 | And acknowledged exactly when it was while firing and has not been resolved |
| `AlertEngine.BooksBalance` | backend/src/modules/monitoring/alert-engine.service.ts:187-217 | In every reachable state: one firing instance per rule at most, trigger count equal to the instances, one fired and at most one resolved event per instance |
| `AlertEngine.StatusOnlyAdvances` | backend/src/modules/monitoring/monitoring.service.ts:144-170 | FIRING to ACKNOWLEDGED to RESOLVED or FIRING to RESOLVED, RESOLVED final; an evaluation never touches an acknowledged instance |
| `AlertEngine.QuietEvaluationResolves` | backend/src/modules/monitoring/alert-engine.service.ts:79-82 | A non-breaching evaluation leaves no FIRING instance and no timer |
| `AlertEngine.SeriesStartMeaning` | backend/src/modules/monitoring/alert-engine.service.ts:66-71 | The reference definition of the series: it began at an evaluation since which none of the rule was quiet |
| `AlertEngine.RunKeepsInv` | backend/src/modules/monitoring/alert-engine.service.ts:51-236 | Timer table, firing records, instances and events agree in every reachable state |
| `AlertEngine.AlertEngineService.EvaluateRule` | backend/src/modules/monitoring/alert-engine.service.ts:51-83 | The method makes the specification's step |
| `AlertEngine.AlertEngineService.HandleAlertFiring` | backend/src/modules/monitoring/alert-engine.service.ts:169-217 | Cooldown, existing instance, creation, counter and event |
| `AlertEngine.AlertEngineService.HandleAlertResolved` | backend/src/modules/monitoring/alert-engine.service.ts:219-236 | All firing instances of the rule are resolved and announced in order |
| `AlertEngine.AlertEngineService.AcknowledgeAlert` | backend/src/modules/monitoring/monitoring.service.ts:144-157 | Only a firing instance can be acknowledged |
| `AlertEngine.AlertEngineService.ResolveAlert` | backend/src/modules/monitoring/monitoring.service.ts:159-170 | Only an unresolved one can be resolved |
| `AlertRaces.FiringBound` | backend/src/modules/monitoring/alert-engine.service.ts:169-217 | At the awaits: with at most c rounds of a rule between the search for a firing instance and the save at any time, at most c instances of it fire at once |
| `AlertRaces.FiringBoundReached` | backend/src/modules/monitoring/alert-engine.service.ts:169-217 | And for every c some run of c overlapping rounds has c |
| `AlertRaces.LookIff` | backend/src/modules/monitoring/alert-engine.service.ts:169-186 | A round goes on to create an instance exactly when the cooldown it has loaded is over and none fires |
| `AlertRaces.OnePerRound` | backend/src/modules/monitoring/alert-engine.service.ts:169-217 | Over every interleaving a round creates one instance at most |
| `AlertRaces.LastExact` | backend/src/modules/monitoring/alert-engine.service.ts:205-208 | The rule's last firing is the time a round that had created its instance last wrote it |
| `AlertRaces.SavingsWereLoaded` | backend/src/modules/monitoring/monitoring.service.ts:144-171 | What is going to be saved was loaded for it before, in a status that admits it |
| `AlertRaces.SpacedAfterLoad` | backend/src/modules/monitoring/alert-engine.service.ts:169-208 | Once a firing has been written to the rule, a round that loads the rule later creates an instance a cooldown later at the earliest; closer ones need a round that had loaded the rule before |
| `AlertRaces.ResolvedForGoodIff` | backend/src/modules/monitoring/monitoring.service.ts:144-171 | A resolved instance stays resolved whatever follows exactly when no acknowledgement loaded before is still to be saved |
| `AlertRaces.AcknowledgedAfterResolved` | backend/src/modules/monitoring/monitoring.service.ts:144-171 | Such an acknowledgement, saved last, undoes a resolution |
| `AlertRaces.SweepResolves` | backend/src/modules/monitoring/alert-engine.service.ts:219-236 | After a quiet round's search every instance of that time that still fires has a save pending, whatever else interleaves and as long as no save fails |
| `NumberTexts.ParseNumberText` | backend/src/modules/system/csf.service.ts:88 | A printed number reads as its leading digits, whatever follows but a digit |
| `NumberTexts.WholeIff` | backend/src/modules/system/csf.service.ts:88 | What is read prints as the number that was given exactly when that is printed in digits only |
| `ConfLines.RenderedList` | backend/src/modules/system/csf.service.ts:107-109 | What was parsed from a list line prints back to the line |
| `ConfLines.ParsedList` | backend/src/modules/system/csf.service.ts:107-116 | Printed list lines parse back to their parts |
| `ConfLines.OneKeyPerLine` | backend/src/modules/system/csf.service.ts:107-109 | A line matches one key only |
| `CsfPorts.TokensOfJoin` | backend/src/modules/system/csf.service.ts:112-116 | Printing clean tokens with commas and splitting, trimming, filtering gives them back |
| `CsfPorts.EditSelectedExact` | backend/src/modules/system/csf.service.ts:122-139 | After allow or deny each list holds the edited tokens if (protocol, direction) selects it and its old tokens if not, whatever the file looks like |
| `CsfPorts.OtherLinesUntouched` | backend/src/modules/system/csf.service.ts:122-139 | Every line but the first matching ones of the selected keys stays character for character |
| `CsfPorts.PortsAfterAllow` | backend/src/modules/system/csf.service.ts:79-139 | Reading after allow: the whole part of the port is appended where the port was not listed as printed, nothing else changes |
| `CsfPorts.AllowOpens` | backend/src/modules/system/csf.service.ts:122-139 | Allowing opens the port in TCP_IN, TCP_OUT, UDP_IN and UDP_OUT by protocol and direction |
| `CsfPorts.DenyCloses` | backend/src/modules/system/csf.service.ts:183-198 | Denying takes it out of the same lists |
| `CsfPorts.OtherListsKept` | backend/src/modules/system/csf.service.ts:122-198 | Neither touches the lists of the other protocol or direction, or of any other key |
| `CsfPorts.BothIsOneAfterTheOther` | backend/src/modules/system/csf.service.ts:122-198 | Both directions, and both protocols, are one after the other: the same text |
| `CsfPorts.WithoutPortExact` | backend/src/modules/system/csf.service.ts:206 | The stored rules after a deny are those of the other ports |
| `CsfPorts.AllowedReadsBackIff` | backend/src/modules/system/csf.service.ts:79-139 | The port reads back as it was given exactly when it is printed in digits only; otherwise its whole part reads as open |
| `CsfPorts.FractionStays` | backend/src/modules/system/csf.service.ts:79-198 | Such a port stays open for the reader whatever integer is denied next |
| `CsfPorts.EightyAndAHalf` | backend/src/modules/system/csf.service.ts:79-198 | 80.5 is one: it opens 80, and denying 80 does not close it |
| `CsfPorts.PortsAfterDeny` | backend/src/modules/system/csf.service.ts:79-198 | Reading after deny: a list that is not selected stays, in a selected one the port is gone and every other port is kept, in order, exactly when nothing else in the list spells the port |
| `CsfPorts.DenyLeavesOtherSpellings` | backend/src/modules/system/csf.service.ts:173-181 | A denied port still reads as allowed exactly when a token spells it differently |
| `CsfPorts.AllowTwice` | backend/src/modules/system/csf.service.ts:102-139 | Allowing twice leaves the text of allowing once, character for character |
| `CsfPorts.DenyUndoesAllow` | backend/src/modules/system/csf.service.ts:102-198 | Deny after allow of an unlisted port, in the same spelling, gives back the same lists |
| `CsfPorts.DenyOfReadUndoesIff` | backend/src/modules/system/csf.service.ts:79-198 | Denying the port as it reads does so exactly when it is printed in digits only (or no list was edited) |
| `CsfPorts.QuotesMatchIff` | backend/src/modules/system/csf.service.ts:116 | The rewritten line has matching quotes exactly when it opened with a double quote |
| `CsfPorts.CsfService.AllowPort` | backend/src/modules/system/csf.service.ts:102-165 | Text, stored rule and result of the call for every I/O outcome |
| `CsfPorts.CsfService.DenyPort` | backend/src/modules/system/csf.service.ts:167-215 | The same for deny; all stored rules of the port go |
| `LfdConfig.ParsedValue` | backend/src/modules/system/csf-lfd.service.ts:105-111 | A written number parses back to its leading digits, and what follows them stays in the line |
| `LfdConfig.UpdateValueExact` | backend/src/modules/system/csf-lfd.service.ts:105-111 | One update: the key reads as the whole part of the new number if the file has it, every other key and line is as before |
| `LfdConfig.UpdateAllExact` | backend/src/modules/system/csf-lfd.service.ts:126-129 | All updates in a row, key by key |
| `LfdConfig.UpdateThenGet` | backend/src/modules/system/csf-lfd.service.ts:60-129 | Settings read back as the old ones overridden by the whole parts of the given numbers, except that a setting without a line keeps its fallback |
| `LfdConfig.SettingsByName` | backend/src/modules/system/csf-lfd.service.ts:66-82 | Which key each setting is read from, and with which fallback |
| `LfdConfig.ReadsBackIff` | backend/src/modules/system/csf-lfd.service.ts:60-129 | A given number reads back as printed exactly when it is printed in digits only |
| `LfdConfig.LeftoverStays` | backend/src/modules/system/csf-lfd.service.ts:105-111 | Otherwise what follows its digits stays in the line behind whatever is set next |
| `LfdConfig.FiveAndAHalf` | backend/src/modules/system/csf-lfd.service.ts:105-111 | 5.5 is such a number: it reads back as 5 and leaves its fraction |
| `LfdConfig.IgnoreThenRemoveIff` | backend/src/modules/system/csf-lfd.service.ts:169-236 | Ignoring and removing an address restores the file character for character exactly when no line began with it and every further line of the comment does |
| `LfdConfig.TwoLineComment` | backend/src/modules/system/csf-lfd.service.ts:169-236 | The second line of a comment that does not begin with the address is left in the file |
| `LfdConfig.LeftBehind` | backend/src/modules/system/csf-lfd.service.ts:169-236 | So on an empty file with the address `1` and a comment of the lines `x` and `2` |
| `LfdConfig.IgnoreAddsEntries` | backend/src/modules/system/csf-lfd.service.ts:238-262 | In between, the listing has gained the entries of the lines that were written, at its end |
| `LfdConfig.NewEntry` | backend/src/modules/system/csf-lfd.service.ts:238-262 | With a comment of one line that is exactly the entry, if the listing's pattern covers the whole address, and nothing if not, as for IPv6 with a zone |
| `LfdConfig.AddressChars` | backend/src/modules/system/csf-lfd.service.ts:249 | The characters an address can have in the listing |
| `LfdConfig.NoEntry` | backend/src/modules/system/csf-lfd.service.ts:238-262 | Blank lines and comments are not listed |
| `LfdConfig.HiddenEntry` | backend/src/modules/system/csf-lfd.service.ts:238-262 | An address on the second line of a comment is listed, too |
| `LfdConfig.CsfLfdService.UpdateSettings` | backend/src/modules/system/csf-lfd.service.ts:99-144 | The loop over the keys computes the specified text |
| `LfdConfig.CsfLfdService.IgnoreIp` | backend/src/modules/system/csf-lfd.service.ts:169-203 | When the list changes and to what, whether or not the `cp` takes |
| `LfdConfig.CsfLfdService.RemoveIgnoredIp` | backend/src/modules/system/csf-lfd.service.ts:205-236 | The same, also without a file |
| `SshdConfig.DirectiveReads` | backend/src/modules/system/ssh-security.service.ts:46-52 | A written directive is active with its value for its keyword, in any case, and for no other |
| `SshdConfig.SetThenRead` | backend/src/modules/system/ssh-security.service.ts:188-201 | After one update the keyword reads as the new value, its first line being active, commented out, repeated or missing; every other keyword as before, although preceding blank lines and a lone comment sign are swallowed |
| `SshdConfig.FoldsLetters` | backend/src/modules/system/ssh-security.service.ts:47 | Keywords are compared letter by letter without regard to case |
| `SshdConfig.UpdatableLine` | backend/src/modules/system/ssh-security.service.ts:192 | A line counts as the keyword's with blanks and one comment sign before it |
| `SshdConfig.SetValueExact` | backend/src/modules/system/ssh-security.service.ts:194-199 | The text after one update: the first such line replaced, blank lines and lone comment signs before it swallowed, or the directive last |
| `SshdConfig.ReadAfterUpdate` | backend/src/modules/system/ssh-security.service.ts:203-217 | What any keyword reads as after the five updates |
| `SshdConfig.UpdateThenGet` | backend/src/modules/system/ssh-security.service.ts:169-217 | The settings read back are the old ones overridden by the given ones, numbers by their whole parts, keys being active, commented out, repeated or missing |
| `SshdConfig.NumbersReadBackIff` | backend/src/modules/system/ssh-security.service.ts:169-217 | A given number reads back as printed exactly when it is printed in digits only |
| `SshdConfig.OtherKeywordsKept` | backend/src/modules/system/ssh-security.service.ts:188-217 | Keywords no setting stands for read as before |
| `SshdConfig.KeywordsInFile` | backend/src/modules/system/ssh-security.service.ts:203-217 | Under which keywords the given settings are found |
| `SshdConfig.ReadWithoutLine` | backend/src/modules/system/ssh-security.service.ts:57-63 | What is read for a keyword the file does not have |
| `SshdConfig.PortLineParsed` | backend/src/modules/system/ssh-security.service.ts:107 | Which lines are taken for the port's |
| `SshdConfig.PortLineRendered` | backend/src/modules/system/ssh-security.service.ts:107 | And only those |
| `SshdConfig.ReplacePortExact` | backend/src/modules/system/ssh-security.service.ts:107-112 | The text after the port change |
| `SshdConfig.NewPortReadsIff` | backend/src/modules/system/ssh-security.service.ts:107-114 | The port reads back as the new one's whole part exactly when no active port line in another spelling comes before the rewritten one, or it was that already |
| `SshdConfig.NewPortAsGivenIff` | backend/src/modules/system/ssh-security.service.ts:107-114 | And as the port that was given exactly when that is printed in digits only, too |
| `SshdConfig.PortKeepsOthers` | backend/src/modules/system/ssh-security.service.ts:107-114 | Changing the port leaves every other keyword's reading |
| `SshSecurity.NumbersAfterDeny` | backend/src/modules/system/csf.service.ts:173-181 | A denied number is gone exactly when no other spelling of it is listed, and no other number goes |
| `SshSecurity.PortsAfterMove` | backend/src/modules/system/ssh-security.service.ts:132-143 | After a port change, each edit having taken or not, the TCP lists hold the whole part of the new port, not the old one unless it is that, 22 or spelled otherwise, and what else they held; the UDP lists stay |
| `SshSecurity.InRangeIff` | backend/src/modules/system/ssh-security.service.ts:79-83 | The accepted integers are those from 1 to 65535 |
| `SshSecurity.InRangeHalf` | backend/src/modules/system/ssh-security.service.ts:79-83 | Fractions are accepted within the range and not past its ends |
| `SshSecurity.OutOfRange` | backend/src/modules/system/ssh-security.service.ts:79-83 | Numbers printed with an exponent and negative ones are not accepted |
| `SshSecurity.MovedRulesExact` | backend/src/modules/system/ssh-security.service.ts:129-140 | The stored rules after a port change, each call having saved or not |
| `SshSecurity.InstalledExact` | backend/src/modules/system/ssh-security.service.ts:116-127 | Which text sshd_config has after a change, by what failed |
| `SshSecurity.PortChanged` | backend/src/modules/system/ssh-security.service.ts:79-167 | Configuration and firewall together, for a change whose installation and firewall edits worked |
| `SshSecurity.SshSecurityService.Install` | backend/src/modules/system/ssh-security.service.ts:116-130 | The file after install, check and revert, for every failing call |
| `SshSecurity.SshSecurityService.UpdateSecuritySettings` | backend/src/modules/system/ssh-security.service.ts:180-245 | Success reads back as overridden; after an objection by sshd the text is as before exactly when the new one never went in, the backup was made and put back, or nothing differed |
| `SshSecurity.SshSecurityService.MoveFirewall` | backend/src/modules/system/ssh-security.service.ts:132-143 | Allow then deny, only when the old port is neither the new one nor 22 |
| `SshSecurity.SshSecurityService.ChangePort` | backend/src/modules/system/ssh-security.service.ts:79-167 | For any finite number: range and use checks and validation failure leave the firewall alone; file and firewall otherwise |
| `TerminalSessions.RunKeepsInv` | backend/src/modules/terminal/session-manager.service.ts:60-241 | Over every interleaving at the awaits: session map, pending saves and entity states agree; in particular a session in the map is ENDED exactly while a removal of it is in flight |
| `TerminalSessions.RunAdvances` | backend/src/modules/terminal/session-manager.service.ts:60-241 | Along every run an id that left the map never returns, a session that left is ENDED with its end time set, ENDED and ERROR are final, end times only move forward |
| `TerminalSessions.EntersOnce` | backend/src/modules/terminal/session-manager.service.ts:60-167 | From the initial state on: once outside after creation, outside for good |
| `TerminalSessions.EntersIff` | backend/src/modules/terminal/session-manager.service.ts:65-137 | Over whole runs: an id is in the map exactly when its creation was saved and its PTY started, with no removal completed since; it is ERROR exactly when it was saved and the PTY did not start; a creation whose save threw is neither |
| `TerminalSessions.RecordsExact` | backend/src/modules/terminal/session-manager.service.ts:65-241 | A session's record says when and why it ended last, and when it was last used |
| `TerminalSessions.ExitReasonIff` | backend/src/modules/terminal/session-manager.service.ts:214-216 | The recorded reason tells signals from exits, and which it was |
| `TerminalSessions.CanHappen` | backend/src/modules/terminal/session-manager.service.ts:50-241 | Which steps are possible when |
| `TerminalSessions.SettledSessionsAreActive` | backend/src/modules/terminal/session-manager.service.ts:60-241 | When nothing is in flight the active sessions are exactly those of the map, and every other one has ended with its end time set, unless its first save threw |
| `TerminalSessions.ActivityProtects` | backend/src/modules/terminal/session-manager.service.ts:229-241 | No cleanup run, however interleaved, ends a session within the timeout of its last activity |
| `TerminalSessions.IdleEndIff` | backend/src/modules/terminal/session-manager.service.ts:229-241 | Over whole runs: a session nobody asks to end is ended exactly when some cleanup run, however its visits interleave, began more than the timeout after the session's last activity before the visit |
| `TerminalSessions.SurvivorsWereBeingCreated` | backend/src/modules/terminal/session-manager.service.ts:50-58 | What is alive any time after shutdown was waiting for its first save at shutdown |
| `TerminalSessions.ShutdownLeaksIff` | backend/src/modules/terminal/session-manager.service.ts:50-58 | And every such creation can leave a running session behind: shutdown leaks exactly these |
| `TerminalSessions.CleanedExact` | backend/src/modules/terminal/session-manager.service.ts:229-241 | An uninterrupted cleanup run removes exactly the idle sessions, with reason and end time |
| `TerminalSessions.EndEachIsShutdown` | backend/src/modules/terminal/session-manager.service.ts:55-57 | The unawaited loop at shutdown ends every session of the map once |
| `TerminalSessions.SessionManagerService.CreateSession` | backend/src/modules/terminal/session-manager.service.ts:65-83 | Up to the first save |
| `TerminalSessions.SessionManagerService.SessionSaved` | backend/src/modules/terminal/session-manager.service.ts:91-137 | After the save: into the map, or ERROR, or nothing when the save threw |
| `TerminalSessions.SessionManagerService.DestroySession` | backend/src/modules/terminal/session-manager.service.ts:144-160 | Up to the save; nothing for an unknown id |
| `TerminalSessions.SessionManagerService.HandlePtyExit` | backend/src/modules/terminal/session-manager.service.ts:209-218 | Up to the save, with the reason the exit gives |
| `TerminalSessions.SessionManagerService.FinishRemove` | backend/src/modules/terminal/session-manager.service.ts:165 | After the save, in both |
| `TerminalSessions.SessionManagerService.UpdateActivity` | backend/src/modules/terminal/session-manager.service.ts:200-207 | Only a session in the map is touched |
| `TerminalSessions.SessionManagerService.CleanupIdleSessions` | backend/src/modules/terminal/session-manager.service.ts:229-241 | The loop computes the uninterrupted cleanup |
| `TerminalSessions.SessionManagerService.OnModuleDestroy` | backend/src/modules/terminal/session-manager.service.ts:50-58 | The loop makes the shutdown step |
| `AuthTokens.RefreshKeyInjective` | backend/src/modules/auth/auth.service.ts:202 | The refresh key determines user and token, whatever the token looks like |
| `AuthTokens.PrefixMatchesIff` | backend/src/modules/auth/auth.service.ts:225 | The deletion pattern of a user matches that user's keys and no others |
| `AuthTokens.RefreshTokenIff` | backend/src/modules/auth/auth.service.ts:198-230 | Refinement to the history: over any run of logins, logouts, reset requests and resets breaking off anywhere, a refresh token is accepted exactly when it was last stored less than the expiry ago and neither logged out nor invalidated by a reset since |
| `AuthTokens.ResetTokenIff` | backend/src/modules/auth/auth.service.ts:152-196 | A reset token stands for a user exactly when requested for that user less than 3600 s ago and neither used up nor issued again since |
| `AuthTokens.SpentIff` | backend/src/modules/auth/auth.service.ts:174-186 | A working reset token is spent by a reset exactly when that gets past password change and deletion |
| `AuthTokens.ResetSparesOthers` | backend/src/modules/auth/auth.service.ts:224-230 | A reset changes no other user's password or refresh tokens |
| `AuthTokens.ResetTakesAll` | backend/src/modules/auth/auth.service.ts:224-230 | A completed reset gives its user the new password and leaves no refresh token |
| `AuthTokens.ResetExact` | backend/src/modules/auth/auth.service.ts:174-196 | Which of password and refresh tokens a reset has changed, by where it stops |
| `AuthTokens.ResetRefused` | backend/src/modules/auth/auth.service.ts:178-180 | Without a working token nothing happens |
| `AuthTokens.ParsedExpiry` | backend/src/modules/auth/auth.service.ts:232-254 | A number and a unit read as that many units |
| `AuthTokens.ExpiryInSeconds` | backend/src/modules/auth/auth.service.ts:232-254 | Seconds, minutes, hours and days in numbers, and 900 seconds for anything else |
| `AuthTokens.AuthService.StoreRefreshToken` | backend/src/modules/auth/auth.service.ts:198-205 | The login's step; a zero expiry fails and stores nothing |
| `AuthTokens.AuthService.ValidateRefreshToken` | backend/src/modules/auth/auth.service.ts:207-214 | Whether the key is there and has not expired |
| `AuthTokens.AuthService.Logout` | backend/src/modules/auth/auth.service.ts:103-118 | The token goes even when the user is not found afterwards |
| `AuthTokens.AuthService.RequestPasswordReset` | backend/src/modules/auth/auth.service.ts:152-163 | Nothing for an unknown address, otherwise a key for an hour |
| `AuthTokens.AuthService.InvalidateAllRefreshTokens` | backend/src/modules/auth/auth.service.ts:224-230 | All keys under the user's prefix go |
| `AuthTokens.AuthService.ResetPassword` | backend/src/modules/auth/auth.service.ts:174-196 | The steps in order, for each point at which they can throw |
| `AuthRaces.UsesAreReaders` | backend/src/modules/auth/auth.service.ts:174-186 | At the awaits: a reset token changes the password as often as resets read it and did not throw before |
| `AuthRaces.UnusableForGood` | backend/src/modules/auth/auth.service.ts:176-184 | After the first deletion, or the expiry, no reset reads it |
| `AuthRaces.UsableIff` | backend/src/modules/auth/auth.service.ts:152-186 | The token can be read exactly until it expires or a reset that has changed the password deletes it |
| `AuthRaces.DeletedIsSpent` | backend/src/modules/auth/auth.service.ts:184 | A reset that deletes the token while no other one holds it makes the last change with it |
| `AuthRaces.TokensExact` | backend/src/modules/auth/auth.service.ts:103-230 | Over every interleaving of logins, logouts and resets the user ends up with a refresh token exactly when it was stored, or there to begin with, and no later step took it: its logout, or the end of a reset that had listed it |
| `AuthRaces.SurvivorsAreNew` | backend/src/modules/auth/auth.service.ts:224-230 | So a token the user has after a reset has run to its end was stored after the reset listed the tokens |
| `AuthRaces.LoginDuringReset` | backend/src/modules/auth/auth.service.ts:224-230 | And a login between listing and deletion outlives the reset |
| `Lockout.CounterExact` | backend/src/modules/users/users.service.ts:158-192 | The counter is always the number of failed checks since the last success or unlock |
| `Lockout.LockedIff` | backend/src/modules/users/users.service.ts:169-181 | The account is locked exactly when five checks or more have failed since the last success or unlock, the last of them less than 15 minutes ago |
| `Lockout.AttemptIff` | backend/src/modules/auth/auth.service.ts:45-61 | What an attempt comes to, by the history and the password |
| `Lockout.LockoutBound` | backend/src/modules/users/users.service.ts:169-181 | Sequential attempts after a reset at t0: at most 5 + floor(T / 15 min) are checked within T, the rest refused |
| `Lockout.BoundAfterReset` | backend/src/modules/auth/auth.service.ts:45-61 | The bound holds after every success and every unlock, whatever came before |
| `Lockout.BoundIsReached` | backend/src/modules/users/users.service.ts:169-181 | For every T some sequence of attempts reaches the bound |
| `Lockout.OverlapHasNoBound` | backend/src/modules/auth/auth.service.ts:49-57 | Attempts that overlap are all checked, if nothing limits how many do |
| `Lockout.OverlapBound` | backend/src/modules/auth/auth.service.ts:45-61 | With at most c wrong attempts between the look at the lock and the record at any time, at most 4 + c (1 + floor(T / 15 min)) are checked within T of a reset |
| `Lockout.OverlapBoundIsReached` | backend/src/modules/auth/auth.service.ts:45-61 | And for every c > 0 and T some run reaches that |
| `Lockout.User.RecordLoginAttempt` | backend/src/modules/users/users.service.ts:158-184 | The new counter and lock |
| `Lockout.User.ValidateUser` | backend/src/modules/auth/auth.service.ts:45-61 | Outcome and new state, by lock, password and activity |
| `SettingsCache.RoundTripIff` | backend/src/modules/system/settings.service.ts:83-111 | Parsing what was printed gives the value exactly when the type is that of a plain value, or JSON and the value survives JSON |
| `SettingsCache.SetCoherentIff` | backend/src/modules/system/settings.service.ts:155-200 | A successful set keeps the cache coherent exactly when the type fits the value |
| `SettingsCache.RunCoherent` | backend/src/modules/system/settings.service.ts:43-261 | Over any run of start-up, get, set, setMultiple, delete and clearCache with failing queries, every cached entry is the parsed row |
| `SettingsCache.ObjectCoherentIff` | backend/src/modules/system/settings.service.ts:155-200 | For an object set without naming a type that is exactly when JSON gives it back |
| `SettingsCache.GetAsUncached` | backend/src/modules/system/settings.service.ts:113-137 | So `get` answers as a store without a cache would, and throws only for an uncached key whose query fails |
| `SettingsCache.ExistsAsUncached` | backend/src/modules/system/settings.service.ts:251-255 | So does `exists` |
| `SettingsCache.SetThenGet` | backend/src/modules/system/settings.service.ts:113-200 | A successful set is what `get` answers, for this key alone |
| `SettingsCache.SetKeepsRest` | backend/src/modules/system/settings.service.ts:155-200 | A set touches its own row; without options it keeps description and secrecy |
| `SettingsCache.SetsExact` | backend/src/modules/system/settings.service.ts:245-249 | `setMultiple` gives each key the last value named for it and leaves all others |
| `SettingsCache.LoadExact` | backend/src/modules/system/settings.service.ts:48-65 | After a load that works a key is cached exactly when the table has it |
| `SettingsCache.FoundIsCached` | backend/src/modules/system/settings.service.ts:113-137 | What `get` has found it answers again without the table |
| `SettingsCache.FlagTexts` | backend/src/modules/system/settings.service.ts:83-111 | Which texts are true, and how flags are stored |
| `SettingsCache.SetSurvivesReloadIff` | backend/src/modules/system/settings.service.ts:155-261 | After a reload it still is exactly when the type fits the value |
| `SettingsCache.DeleteThenGet` | backend/src/modules/system/settings.service.ts:209-213 | A deleted key is missing, every other one answers as an uncached store |
| `SettingsCache.EnsureDefaultsExact` | backend/src/modules/system/settings.service.ts:67-81 | Start-up adds every missing default, overwrites nothing, and is idempotent |
| `SettingsCache.DefaultsReadBack` | backend/src/modules/system/settings.service.ts:14-30 | Each default has the type of its value: it reads back |
| `SettingsCache.InitExact` | backend/src/modules/system/settings.service.ts:43-81 | A start-up whose queries work: rows, cache and added defaults |
| `SettingsCache.InitBroken` | backend/src/modules/system/settings.service.ts:67-81 | One that breaks off has saved the defaults before the failing query |
| `SettingsCache.SettingsService.LoadCache` | backend/src/modules/system/settings.service.ts:48-65 | The cache becomes the parsed table, or stays when the query fails |
| `SettingsCache.SettingsService.EnsureDefaults` | backend/src/modules/system/settings.service.ts:67-81 | The loop, broken off by a failing query or completed and reloaded |
| `SettingsCache.SettingsService.Get` | backend/src/modules/system/settings.service.ts:113-137 | Reply and new cache |
| `SettingsCache.SettingsService.Set` | backend/src/modules/system/settings.service.ts:155-200 | New row and cache entry |
| `SettingsCache.SettingsService.SetMultiple` | backend/src/modules/system/settings.service.ts:245-249 | One set after the other |
| `SettingsCache.SettingsService.Delete` | backend/src/modules/system/settings.service.ts:209-213 | Row and cache entry go together |
| `SettingsCache.SettingsService.ClearCache` | backend/src/modules/system/settings.service.ts:257-261 | Emptied and reloaded |
| `SettingsRaces.EntriesAreOldRows` | backend/src/modules/system/settings.service.ts:113-213 | At the awaits: the cache entry is always the row as it was when the call that filled the entry used the table |
| `SettingsRaces.StaleIff` | backend/src/modules/system/settings.service.ts:113-213 | With every write bringing a new value, the cache is stale exactly when the table has been written since that use |
| `SettingsRaces.CoherentAtRest` | backend/src/modules/system/settings.service.ts:48-213 | If no write happens while another call is between its query and its cache change, the cache is coherent whenever no call is under way |
| `SettingsRaces.CacheChanges` | backend/src/modules/system/settings.service.ts:113-261 | The cache entry changes only when a call ends, to what that call had seen or written, and when the cache is cleared |
| `SettingsRaces.OvertakenReadIsStale` | backend/src/modules/system/settings.service.ts:123-134 | One write that overtakes is enough: a `get`, then a `set` or `delete` in between, leaves the old value in the cache with nothing left to remove it |
| `Retention.StaysIff` | backend/src/modules/backups/backups.service.ts:679-726 | Other schedules' and uncompleted backups stay, expired ones go, unexpired ones stay if among the newest; what stays is unchanged |
| `Retention.ExactlyMaxRemain` | backend/src/modules/backups/backups.service.ts:706-725 | Exactly min(maxBackups, n) of the n unexpired completed backups remain |
| `Retention.NewestKept` | backend/src/modules/backups/backups.service.ts:706-725 | No unexpired backup is removed that is strictly newer than one kept |
| `Retention.Idempotent` | backend/src/modules/backups/backups.service.ts:679-726 | A second run at the same clock removes and asks for nothing |
| `Retention.OneAttemptEach` | backend/src/modules/backups/backups.service.ts:694-725 | One storage deletion is tried for each removed backup with a path, none for any other |
| `Retention.BackupsService.RemoveAll` | backend/src/modules/backups/backups.service.ts:694-704 | The loop removes all rows and asks the storage once for each with a path |
| `Retention.BackupsService.ApplyRetention` | backend/src/modules/backups/backups.service.ts:679-726 | Both passes in order |
| `CommandOutput.BufferExact` | backend/src/core/executor/command-executor.service.ts:138-151 | For every chunk sequence the buffer is a suffix of the stream, at most 10 MiB long, the whole stream exactly as long as that fits, at least 5 MiB from then on |
| `CommandOutput.Execution.OnData` | backend/src/core/executor/command-executor.service.ts:138-151 | However the streams interleave, each buffer depends on its own chunks only |
| `CommandOutput.StreamsApart` | backend/src/core/executor/command-executor.service.ts:138-151 | What was printed is told apart by stream |
| `CommandOutput.KeepsNewest` | backend/src/core/executor/command-executor.service.ts:138-151 | Up to 10 MiB everything is kept, past that the newest 5 MiB are |
| `CommandOutput.Execution.OnEnd` | backend/src/core/executor/command-executor.service.ts:158-213 | Success, exit code, and what the result keeps of both streams, for each way of ending, a signal included |
| `CommandOutput.ExecuteWithRetry` | backend/src/core/executor/command-executor.service.ts:228-254 | The first success or the last failure, the attempts before it all failed, k attempts wait retryDelay k(k-1)/2; no result without an attempt |
| `QuietHours.ClockOrder` | backend/src/modules/notifications/notification-dispatcher.service.ts:199-205 | On padded clock strings the string order is the order of the minutes |
| `QuietHours.WindowIff` | backend/src/modules/notifications/notification-dispatcher.service.ts:179-206 | For padded bounds the comparison decides (t - s) mod 1440 <= (e - s) mod 1440, across midnight or not |
| `QuietHours.AnyWindow` | backend/src/modules/notifications/notification-dispatcher.service.ts:199-205 | For any two strings the quiet minutes are one stretch of the day, or the day without one, by where the strings stand among the clock's |
| `QuietHours.UnpaddedCuts` | backend/src/modules/notifications/notification-dispatcher.service.ts:199-205 | An hour without its leading zero stands where ten times the next hour does: `0:30` at 10:00, `1:30` at 20:00, from `2:00` on at the end of the day |
| `QuietHours.NineToFive` | backend/src/modules/notifications/notification-dispatcher.service.ts:199-205 | Quiet hours given as `9:00` to `17:00` last from midnight to 17:00 |
| `QuietHours.NeverQuiet` | backend/src/modules/notifications/notification-dispatcher.service.ts:180-187 | Without the switch or a bound no time is quiet |
| `QuietHours.QuietIff` | backend/src/modules/notifications/notification-dispatcher.service.ts:179-206 | Otherwise the quiet times are the stretch the two strings stand for |
| `QuietHours.Printed24Iff` | backend/src/modules/notifications/notification-dispatcher.service.ts:192-197 | When the hour after midnight prints as 24, exactly which of its minutes are decided differently |
| `QuietHours.MidnightExample` | backend/src/modules/notifications/notification-dispatcher.service.ts:192-197 | A window 00:00 to 06:00 printed that way does not hold at 00:30 |

## Left out

- Controllers, gateways, DTO validation, permissions, logging, auditing beyond its failure, and all user interface code: wiring without a hard property.
- Spawning processes, sudo, systemctl, ownership and modes of files, the real file system: calls that work or fail, with an abstract effect.
- The table of allowed commands: as it stands it would refuse the `useradd` call with `-u`, so account creation is modelled as if the call reached the system.
- TypeORM, Redis, axios, JWT and password hashing: only the map, expiry and callback behaviour the code relies on; rounding of stored timestamps to seconds and decimal columns read back as strings are not modelled.
- SshdConfig.UpdateThenGet: is about files with one directive per line; a keyword alone on its line, whose white space pattern would run on into the next line, is not modelled. The same holds for `SetThenRead`, `NewPortReadsIff` and `PortKeepsOthers`.
- CsfPorts.EditSelectedExact: likewise for a key, its equals sign and its quoted value on one line.
- Carriage returns, characters beyond ASCII, and dollar patterns in replacement texts: not modelled in any of the text editors.
- sshd_config settings that are read but never written (X11Forwarding, AllowTcpForwarding, UsePAM): they read as any other keyword, to which `OtherKeywordsKept` and `PortKeepsOthers` apply.
- Rollback.RestoreAllExact: asks that no backup is itself snapshotted; nothing in the source keeps other code out of the snapshot directory.
- TransactionRuns.RunIsHistory: asks that nobody else names the transaction's backups and that a failing copy of its own does not land on a backup it has already made.
- TransactionManager.ExactlyOnceOrNever: takes a rollback as one step; TransactionOverlap has the awaits, for one transaction and without its files.
- TerminalSessions.EntersIff: the text of a spawn error is a constant.
- RefreshQueue.FollowerGoesOn: the token a re-sent request carries comes from the store and is not modelled.
- CsfPorts.CsfService.AllowPort: the stored rule keeps the port as printed; what an integer column makes of a fraction is not modelled, nor how the deletion then compares.
- LfdConfig.UpdateThenGet: is about numbers that print with a digit first, as the request validation leaves them; a negative one would not match again.
- AlertEngine.FiringJustified: each round is one step; AlertRaces has the awaits, for one rule of a fixed cooldown and without its breach timer and counter. Deleted rules are not modelled.
- TerminalSessions.RunAdvances: is about the session objects in memory; which of several overlapping saves reaches the database last is not modelled, nor the recorded terminal size.
- AuthTokens.ResetTokenIff: each reset is one step that may break off; AuthRaces has the awaits, for one token and one user. Access tokens and user lookups at login are left out.
- Lockout.LockoutBound: is about sequential attempts; `OverlapBound` is about overlapping ones whose records are each made at once: overlapping read-modify-write of the counter is not modelled.
- SettingsCache.RunCoherent: each call is one step; SettingsRaces has the awaits, for one setting. Only this service writes the table; values are compared by content, so an object changed by a caller after `set` is not modelled. The listing functions read the table directly.
- Retention.ApplyRetention: the two queries see no other writer, and removing a row does not fail; the cutoff date is a parameter.
- CommandOutput.BufferExact: chunks are strings; a multi-byte character cut between two chunks is not modelled.
- Notification dispatch, severity filters and channel choice: single conditions over the preferences.
- DNS zones, virtual hosts, processes, certificates, file manager and mail: not part of this model.
