# Verified model of the AppCenter agent

A Dafny model of the stateful parts of the AppCenter Windows agent (a Go program), with proofs
about whole runs: every sequence of calls, every interleaving of goroutines, every combination of
failing file operations. `dafny verify dfyconfig.toml` checks it.

| module | what it models |
|---|---|
| `Basics`, `Files`, `FileHash` | optional values and time; a disk as a map from path to bytes, with remove, rename and copy that may fail or stop part-way; the comparison with an expected hash, over a hash function that is a parameter |
| `RotatingLog`, `RotatingLogRuns` | the size-triggered rotating log writer |
| `Sorting`, `Tasks`, `TaskLedger`, `TaskService` | the retrying priority queue, its object, and the loop that drains it |
| `RemoteSession`, `RemoteSessionRuns` | remote support requests, end signals and user ends as interleaved goroutines |
| `Versions`, `UpdateHelper`, `SelfUpdate`, `SelfUpdateRuns`, `SelfUpdateWitness` | version comparison, the helper that swaps the executable, and staging, starting helpers and their work over restarts |
| `RuntimeUpdate`, `ConfigWake` | keeping the tray and helper executables current, and the wake channel of that loop |
| `Downloader`, `StagedDownload` | resumable downloads, and what they mean for a second staging |
| `Heartbeat` | the services list and its hash in heartbeats |
| `WsClient` | the WebSocket connect loop, its backoff, and the heartbeat timer it silences |

Code that updates fields is a class; each method's `ensures` ties its new state to a function of
the old one, and the theorems about runs are lemmas over those functions. When an operation succeeds, and
what it then leaves, is stated as an equivalence on fields and inputs alone, apart from those functions
(`ChangesDecide`, `SyncSucceedsIff`, `AttemptSucceedsIff`, `FailedCheckEnds` and the like). What the
environment decides (outcomes of file operations, network answers, times, user decisions) is an
arbitrary input. Concurrent code is a transition system whose steps are the sections between two mutex or channel operations.

## Findings

Where the code does not do what one might expect. Each is a lemma, with the exact condition where the
behaviour depends on the input:

- The log keeps one backup more than configured: the loop moves `.N` to `.N+1` and nothing removes
  `.N+1` until the next rotation overwrites it (`CleanRunIsPacked`). `AppCenter_Technical_Specification_v1_1.md:1568`
  configures 5 backups; 6 survive.
- A rotation that fails leaves a closed file in the writer, and every later write is dropped until the
  writer is closed (`SilentIff` says exactly when, `FailedRenameSilences` is such a run).
- A remote session can be left active with no session id, and then no request and no end can ever change
  it (`StuckIsReachable`, `StuckForever`); `NoSessionIff` says exactly when the state is not idle without
  a session. Reused session ids let two requests pass the still-pending check with no reset between
  (`ReusedIdsBothPass`); different ids never do (`PassesWithoutResetShareId`).
- "Newer" is not asymmetric on versions that cannot be read (`NewerBothWays`, `UnreadableBothWays`).
- The update helper can leave no executable at the target after two failures (`HelperEnds` says exactly
  which), leaves the service stopped whenever the backup or the replacement fails
  (`ServiceAndVersionAtEnd`), and a rollback after a failed start leaves the config naming the new
  version (`RollbackKeepsNewVersion`; `ConfigNamesTargetIff` is the exact condition).
- A forced offer of the installed version is installed again (`ForcedOfferReinstalls`), and so is an
  ordinary one exactly when the config write failed (`ReinstallNeedsFailedWrite`).
- The staged file is verified when the helper is started, not when it is copied: a staging of the same
  version in between that is cut short becomes the service's executable (`StagingAfterStartTruncates`, `StumpHappens`;
  `TargetGenuineIff` is the exact condition, and `TargetIsAlwaysGenuine` holds without such a staging).
- Two helpers may wait at once, and then an older version can be put in place after a newer one
  (`TwoHelpersGoBack`, `ReversalHappens`; `InstallsIncreaseIff` is the exact condition).
- A download does not check which range a 206 answer carries: a success can leave a file with a gap
  (`ResumeIsExactIff`, `WrongRangeSucceeds`) or, from a server that sends less than was asked for, an
  incomplete one (`SuccessIsCompleteIff`, `ShortAnswerSucceeds`). This system's own server always sends all
  the rest (`OwnServerCompletes`).
- A complete file can only be fetched again from a server that answers a request past its end with everything
  or with an empty 206 (`CompleteFileNeedsAnswer`). A version whose metadata could not be written can be
  staged later exactly from such a server (`CanStageAgainIff`); this system's own is one, and one that
  answers 416 is not (`OwnServerStagesAgain`).
- A reset frees whatever session is there: the end of one session can free the next one
  (`ResetEndsOtherIff`, `EndFreesOtherSession`).
- A report of installed apps whose heartbeat fails is not repeated: the server stays behind until a later
  success with an app id, in a report that gets through (`LostReportIff`, `ReportIsLost`).
- An empty services list never reaches the server, because the JSON field is `omitempty`
  (`WireAgreementIff`, `EmptyListIsMissed`), and a list whose request was lost is not sent again by itself
  (`LostListIff`, `FirstListIsLost`).

The documentation and the code also disagree, and the model follows the code:
`AppCenter_Technical_Specification_v1_1.md:1408-1490` and `README.md:24` describe work hours and a separate
report when retries are used up; the code has neither, and drops a task at its `maxRetries`-th failure
(`TaskLedger.Ledger`).

## Model

| member | source | states |
|---|---|---|
| RotatingLogRuns.RetainedIsSuffix | pkg/utils/logger.go:41-104 | After any run of writes and closes with any file operations failing, the backups from oldest to newest and the current file hold a suffix of the initial contents followed by every record written; a record is never split over two files. |
| RotatingLogRuns.BytesAreSuffix | pkg/utils/logger.go:41-104 | The same for the bytes: the files end the stream of bytes written. |
| RotatingLogRuns.StepRetains | pkg/utils/logger.go:41-104 | One call, whatever fails in it, loses nothing or exactly the whole oldest backup. |
| RotatingLogRuns.ShiftRetains | pkg/utils/logger.go:84-93 | The descending loop, stopped by a failing rename anywhere, loses at most the backup beyond the configured number, and frees slot 1 when it completes. |
| RotatingLogRuns.RotatedRetains | pkg/utils/logger.go:79-104 | A rotation that fails at any point loses at most the oldest backup. |
| RotatingLogRuns.RotatedStaleIff | pkg/utils/logger.go:79-104 | A rotation leaves a closed file in the writer exactly when closing, reopening, or the rename of an existing file fails; failing removals do not matter. |
| RotatingLogRuns.WriteDroppedIff | pkg/utils/logger.go:41-82 | A write leaves a closed file behind exactly when there was one or its rotation fails, and adds no record exactly then or when the file cannot be opened or measured. |
| RotatingLogRuns.SilentIff | pkg/utils/logger.go:41-104 | Over any run the writer is silent exactly when the rotation of some write failed and nobody closed it since. |
| RotatingLogRuns.StaleIsSilent | pkg/utils/logger.go:68-82 | From such a state on no write reaches a file until the writer is closed. |
| RotatingLogRuns.FailedRenameSilences | pkg/utils/logger.go:79-104 | For any limits and records: when the second write overflows and one rename fails, that write and the next, flawless one are dropped. |
| RotatingLogRuns.CleanRotation | pkg/utils/logger.go:79-104 | Without failures a rotation makes every file one older and drops only file backups + 1. |
| RotatingLogRuns.CleanRunIsPacked | pkg/utils/logger.go:68-104 | From a fresh start without failures, after r rotations exactly the files 0..min(r, backups + 1) exist, so one backup more than configured survives, and two neighbours together exceed the size limit; each file fits the limit if each write does. |
| RotatingLogRuns.LogAtMost | pkg/utils/logger.go:41-104 | Whatever fails, the retained log is at most (backups + 2) * maxBytes when each write fits in maxBytes. |
| RotatingLogRuns.RunIsBounded | pkg/utils/logger.go:41-104 | Whatever fails, when each write fits, each file fits and no file is older than number backups + 1. |
| RotatingLogRuns.LogAtLeast | pkg/utils/logger.go:68-104 | Once any byte was discarded the retained log is longer than floor((backups + 2) / 2) * maxBytes. |
| RotatingLogRuns.NothingLostBeforeFull | pkg/utils/logger.go:68-104 | Nothing is discarded before all backups + 2 files exist. |
| RotatingLog.RotatingWriter.constructor | pkg/utils/logger.go:20-32 | Limits that are not positive become 10 MiB and 5 backups; existing files are kept, none is open. |
| RotatingLog.RotatingWriter.NewLogger | pkg/utils/logger.go:20-39 | A writer exactly when the log file can be opened, with every existing file kept and the log file there. |
| RotatingLog.RotatingWriter.Open | pkg/utils/logger.go:106-116 | Opening creates a missing file and keeps an existing one; a failure changes nothing. |
| RotatingLog.RotatingWriter.RenameUp | pkg/utils/logger.go:84-93 | File i replaces file i + 1, also when only the removal or only the rename fails. |
| RotatingLog.RotatingWriter.Rotate | pkg/utils/logger.go:79-104 | The loop over the real files and the handle it leaves are those of the rotation the run theorems are about, for every set of failures. |
| RotatingLog.RotatingWriter.RotateIfNeeded | pkg/utils/logger.go:68-77 | It rotates exactly when the size and the incoming bytes exceed the limit. |
| RotatingLog.RotatingWriter.Append | pkg/utils/logger.go:54 | A write that stops part-way leaves exactly the bytes it counts at the end of the file. |
| RotatingLog.RotatingWriter.Write | pkg/utils/logger.go:41-55 | The files, the handle and the returned count are those of the step the run theorems are about; the file ends with exactly the counted bytes, and success means that the whole record is in one file. |
| RotatingLog.RotatingWriter.Close | pkg/utils/logger.go:57-66 | Closing keeps every file and lets the next write open the log again; it is an error exactly when the close fails or a rotation had closed the file before. |
| Sorting.SortSorts | internal/queue/taskqueue.go:185-190 | The order used for candidates gives a sorted permutation, for any strict weak order. |
| Tasks.PickIsUnique | internal/queue/taskqueue.go:160-193 | With the clock standing still during the scan, the choice is the same for every order in which the map is walked. |
| Tasks.AcceptAllAddsBatch | internal/queue/taskqueue.go:61-74 | Pending tasks stay as they are, and of a batch exactly the ids other than 0 that are not pending become pending, each with its first command. |
| Tasks.ReportIsUnique | internal/queue/taskqueue.go:91-101 | The reported list is determined by the installed map: strictly ascending ids, all of them, with their versions. |
| Tasks.FailureSpends | internal/queue/taskqueue.go:195-214 | A recorded failure keeps retries sound and lowers the sum over pending tasks of (maxRetries - failures) by exactly one. |
| Tasks.SuccessSpends | internal/queue/taskqueue.go:216-231 | A success keeps retries sound and lowers that sum. |
| Tasks.BudgetBounds | internal/queue/taskqueue.go:195-214 | The sum is at least one and at most maxRetries for each pending task. |
| TaskLedger.RunIsCoherent | internal/queue/taskqueue.go:104-231 | In every reachable state each task is filed under its own id, retry keys are task keys with counts in 1..maxRetries-1, no task has id 0, and the command being executed is still the pending and due one. |
| TaskLedger.Ledger | internal/queue/taskqueue.go:127-231 | Every accepted task is pending, or left at its first success, or left at exactly its maxRetries-th failure; the stored retry is the failure count of the trace and the last failure plus 5 minutes times that count. |
| TaskLedger.StartsAreAccounted | internal/queue/taskqueue.go:104-158 | Each start of a task answers to exactly one failure, one success, or the execution under way. |
| TaskLedger.RetrySpacing | internal/queue/taskqueue.go:168-213 | Whatever other tasks do, the k-th retry of a task starts at least 5k minutes after its k-th failure. |
| TaskLedger.GiveUpSpan | internal/queue/taskqueue.go:199-213 | A task given up after m >= 2 failures was started m times, and its last start is at least 5 m (m-1) / 2 minutes after its first failure. |
| TaskLedger.OneReportPerExecution | internal/queue/taskqueue.go:127-157 | The reports are the executions in order with matching status, up to one still to come. |
| TaskLedger.ReportGivesMap | internal/queue/taskqueue.go:91-101 | A receiver that stores a reported list holds exactly the installed map. |
| TaskLedger.AppsLedger | internal/queue/taskqueue.go:82-231 | The installed map is the last-version-wins fold of all successes with an app id, a change is pending exactly when one happened since the last consume, and otherwise a receiver of every list agrees with the queue. |
| TaskLedger.LostReportIff | internal/queue/taskqueue.go:82-102 | Whichever reports are lost, the receiver agrees with the queue exactly when no app got another version after the latest report it heard. |
| TaskLedger.ReportIsLost | internal/queue/taskqueue.go:82-102 | A concrete run: the one report of an installed app is lost, nothing is pending any more, and the receiver does not know the app. |
| TaskService.TaskQueue.constructor | internal/queue/taskqueue.go:47-59 | A new queue is empty and allows 3 attempts unless told a positive number. |
| TaskService.TaskQueue.AddCommands | internal/queue/taskqueue.go:61-74 | Pending tasks stay as they are; of a batch exactly the ids other than 0 that are not pending become pending, each with its first command unchanged; retries and installed apps stay. |
| TaskService.TaskQueue.ConsumeAppsChanged | internal/queue/taskqueue.go:82-102 | It reports a change exactly when the flag was set, with the list of all installed apps by ascending id, and clears the flag. |
| TaskService.TaskQueue.HandleFailure | internal/queue/taskqueue.go:195-214 | The task leaves with its maxRetries-th failure, and otherwise its retry is due 5 minutes later for each failure so far; the run gets that failure. |
| TaskService.TaskQueue.HandleSuccess | internal/queue/taskqueue.go:216-231 | The task and its retry leave, and an app with an id is recorded with its version or "unknown", with the change flag; the run gets that completion. |
| TaskService.TaskQueue.NextRunnable | internal/queue/taskqueue.go:160-193 | For every map order and any clock readings during the scan: a pending task with the least priority, then the least id, of those whose retry time had come when the scan began, and whose own retry time has come when it ends; nothing only if every task waits for a later retry. |
| TaskService.TaskQueue.ProcessOne | internal/queue/taskqueue.go:104-158 | A task is processed exactly when one was picked and it is forced or its wait is not cancelled, so without a cancellation whenever one is due; then exactly it is executed, recorded and reported. Otherwise nothing ran and the queue is as before. |
| TaskService.TaskQueue.Attempt | internal/queue/taskqueue.go:127-157 | Exactly one execution with its outcome and one report with its status; a failure is recorded before its report, a success after it; the fields are those of that outcome. |
| TaskService.LeastOf | internal/queue/taskqueue.go:185-192 | No candidate precedes the one returned. |
| TaskService.SortedIds | internal/queue/taskqueue.go:91-95 | Exactly the keys of the map, strictly ascending. |
| TaskService.ListApps | internal/queue/taskqueue.go:91-101 | The list is the report of the installed map. |
| TaskService.RoundRunsOne | internal/queue/taskqueue.go:104-158 | A round that processed a task added exactly one execution. |
| TaskService.Drain | cmd/service/core.go:618-623 | The draining loop ends for every clock and every outcome of execute, after at most maxRetries executions per pending task, with a scan that found nothing due or a cancelled wait. |
| TaskService.ProcessCommands | cmd/service/core.go:604-624 | The batch is added first, before anything is executed; then the loop ends after at most maxRetries executions per pending task, and without a cancellation only when every task still pending waited for a later retry at the last scan. |
| RemoteSessionRuns.IdleHoldsNoSession | internal/remotesupport/session.go:104-244 | In every interleaving, idle implies session 0. |
| RemoteSessionRuns.SessionLasts | internal/remotesupport/session.go:104-244 | An admitted session keeps its id until the next reset. |
| RemoteSessionRuns.SessionOrigin | internal/remotesupport/session.go:104-112 | A session id other than zero comes from an admission of that id with no reset since. |
| RemoteSessionRuns.PassedWasAdmitted | internal/remotesupport/session.go:105-146 | With fresh ids, the request that passes the still-pending check is the one admitted since the last reset. |
| RemoteSessionRuns.OnePassBetweenResets | internal/remotesupport/session.go:139-146 | With fresh ids, two requests never pass the check without a reset between them. |
| RemoteSessionRuns.ReadyFollowsApproval | internal/remotesupport/session.go:148-203 | A ready report for a session follows a delivered approved=true report for it by the same request, and the answer reported is the one given while that request was warming up. |
| RemoteSessionRuns.ResetBeforeCheckSilences | internal/remotesupport/session.go:139-146 | A request that is reset between its admission and its check never reports, and takes no step of those after the check. |
| RemoteSessionRuns.FailedCheckEnds | internal/remotesupport/session.go:104-146 | In every interleaving, a request that finds the manager busy at its first step, or another stage or id at its check, takes no later step and leaves the session as it is. |
| RemoteSessionRuns.ResetHasReason | internal/remotesupport/session.go:114-209 | A request resets only after a failing step of its own: warming up, a report, the start of the helper, or a refusal given at its own warming step; an end resets only after it saw a session. |
| RemoteSessionRuns.FailureResets | internal/remotesupport/session.go:114-203 | After such a failure the request takes no step but its reset. |
| RemoteSessionRuns.AnswerIsOfWarming | internal/remotesupport/session.go:126-136 | What a request reports and obeys is the answer given at its own warming step. |
| RemoteSessionRuns.SignalMatched | internal/remotesupport/session.go:211-219 | An end signal ends nothing unless it found the session it names. |
| RemoteSessionRuns.OwnerKeepsSession | internal/remotesupport/session.go:148-207 | If nobody else resets after the check, the state at each stage the request writes is that stage with its own session. |
| RemoteSessionRuns.OwnerEndsActiveOrFree | internal/remotesupport/session.go:148-209 | Such a request ends with (active, its session) or (idle, 0). |
| RemoteSessionRuns.StagesInOrder | internal/remotesupport/session.go:104-209 | In every interleaving a request writes pending, approved, connecting, active in this order, each once, as far as it gets. |
| RemoteSessionRuns.NoSessionIff | internal/remotesupport/session.go:104-244 | In every interleaving with fresh ids, the state is not idle while the session is 0 exactly when some request wrote its stage after the last reset and nobody was admitted since that reset. |
| RemoteSessionRuns.NoSessionOrigin | internal/remotesupport/session.go:139-207 | The request that wrote that stage had passed its still-pending check before that reset. |
| RemoteSessionRuns.StuckForever | internal/remotesupport/session.go:104-244 | Once such a state is left by all running goroutines, nothing ever changes it. |
| RemoteSessionRuns.StuckIsReachable | internal/remotesupport/session.go:139-207 | A concrete run that ends there, active with session 0. |
| RemoteSessionRuns.PassesWithoutResetShareId | internal/remotesupport/session.go:105-146 | Whatever ids are used, two requests that pass the check without a reset between them name the same session. |
| RemoteSessionRuns.ReusedIdsBothPass | internal/remotesupport/session.go:105-146 | A concrete run in which two requests with one id do so. |
| RemoteSessionRuns.SessionReplacedIff | internal/remotesupport/session.go:104-244 | A session seen at one step has given way to another one by a later step exactly when somebody was admitted in between with no reset since. |
| RemoteSessionRuns.ResetEndsOtherIff | internal/remotesupport/session.go:211-244 | A reset frees a session other than the one its goroutine saw exactly in that case. |
| RemoteSessionRuns.EndFreesOtherSession | internal/remotesupport/session.go:221-244 | A concrete run in which the end of one session frees the next one. |
| RemoteSession.SessionManager.Enter | internal/remotesupport/session.go:104-112 | A request is admitted exactly when idle; the section is the first step of the transition system. |
| RemoteSession.SessionManager.HandleRequest | internal/remotesupport/session.go:104-209 | Undisturbed, for every outcome of its steps: it leaves what the steps of the transition system leave one after the other, namely (active, its session) or (idle, 0), with the stages written and the reports made; a busy manager is left alone. |
| RemoteSession.SessionManager.Connect | internal/remotesupport/session.go:161-208 | From the delivered approval on: the stages written, the ready report, and the session at the end. |
| RemoteSession.AloneEnds | internal/remotesupport/session.go:104-209 | The steps of a lone request end with (active, its session) exactly when all of them succeed, and otherwise free the manager. |
| RemoteSession.SessionManager.HandleEndSignal | internal/remotesupport/session.go:211-219 | Undisturbed, it ends exactly the session it names. |
| RemoteSession.SessionManager.EndSession | internal/remotesupport/session.go:221-235 | Undisturbed, it frees the manager and reports the end exactly when there is a session. |
| Versions.ExtractSemver3 | internal/updater/updater.go:133-148 | The loop over the parts of the leftmost match computes the triple the version theorems are about. |
| Versions.MatchOfDotted | internal/updater/updater.go:31 | In a text without digits before it, the leftmost match is the whole printed version. |
| Versions.PrintedIsRead | internal/updater/updater.go:133-148 | A printed a.b.c is read back from inside any text without digits before it that does not go on with a digit, exactly when its numbers fit in 63 bits. |
| Versions.TwoNumbersAreRead | internal/updater/updater.go:133-148 | A printed a.b is read as a.b.0. |
| Versions.OneNumberIsRead | internal/updater/updater.go:133-148 | A single number a is read as a.0.0. |
| Versions.NothingToRead | internal/updater/updater.go:134-137 | A text without digits has no version. |
| Versions.NewerByNumbers | internal/updater/updater.go:117-131 | Inside any surrounding text major, then minor, then patch number decide, and when a number does not fit, being different. |
| Versions.NewerIsStrictWeakOrder | internal/updater/updater.go:114-131 | On readable versions "newer" is a strict weak order, and equivalence is equality of the triples. |
| Versions.NewerBothWays | internal/updater/updater.go:117-123 | Two versions are each newer than the other exactly when they differ, none is empty and one is unreadable. |
| Versions.UnreadableBothWays | internal/updater/updater.go:117-123 | A concrete pair of that kind. |
| UpdateHelper.HelperKeepsOld | cmd/update-helper/main_windows.go:60-95 | At every instant, whatever fails: the old executable exists in full at the target or the backup path, and the target is missing, the old or the staged bytes. |
| UpdateHelper.NotReplacedKeepsOld | cmd/update-helper/main_windows.go:60-95 | A run that does not get through its replacement never shows anything but the old bytes at the target. |
| UpdateHelper.ReplacedShowsStaged | cmd/update-helper/main_windows.go:72-77 | A run that does shows the staged bytes there at some instant. |
| UpdateHelper.HelpWritesNothingElse | cmd/update-helper/main_windows.go:60-95 | No file but the target, its copy and the backup is written; any other one stays or is removed. |
| UpdateHelper.HelpCleansUp | cmd/update-helper/main_windows.go:55-101 | A stop that fails changes nothing. A run that replaces the target removes the staged file and the metadata unless a removal fails, even if the start then fails; any other run leaves both, and every run leaves every other file. |
| UpdateHelper.BackupHoldsOld | cmd/update-helper/main_windows.go:65-95 | A run that replaces the target and starts the service leaves the old bytes at the backup path. |
| UpdateHelper.ReplaceIsGood | cmd/update-helper/main_windows.go:140-152 | Each operation of a replacement keeps that, from the staged file or from the backup. |
| UpdateHelper.ReplaceEnds | cmd/update-helper/main_windows.go:140-152 | Where a replacement leaves target and backup, for every combination of failures. |
| UpdateHelper.HelperEnds | cmd/update-helper/main_windows.go:60-101 | The target is missing at the end exactly after the named failures, and otherwise exactly the staged or exactly the old bytes, with the condition for each. |
| UpdateHelper.OneFaultIsHarmless | cmd/update-helper/main_windows.go:60-101 | When at most one of the operations that the run reaches fails, a failed start included, the target ends as exactly the old or the new bytes. |
| UpdateHelper.TwoFaultsLoseTarget | cmd/update-helper/main_windows.go:72-77 | Two failing renames leave no executable, so one is the best bound. |
| UpdateHelper.ServiceAndVersionAtEnd | cmd/update-helper/main_windows.go:60-98 | Exactly when the service runs at the end and exactly which version the config then names, also when the executable is missing. |
| UpdateHelper.ConfigNamesTargetIff | cmd/update-helper/main_windows.go:60-95 | After a completed stop, config and executable agree at the end exactly when no executable was lost and, if the replacement went through, the config write failed just when a failed start was rolled back. |
| UpdateHelper.RollbackKeepsNewVersion | cmd/update-helper/main_windows.go:79-95 | One way to disagree: after a failed start that is rolled back, the old executable runs under a config naming the new version. |
| Files.Drive.CopyFile | cmd/update-helper/main_windows.go:118-138 | A copy leaves what it copied of the source at the destination, and reports success exactly for all of it. |
| Files.Drive.RemoveFile | cmd/update-helper/main_windows.go:146 | Removal succeeds exactly when the file is there and the operation works. |
| Files.Drive.RenameFile | cmd/update-helper/main_windows.go:147-149 | A rename that works moves the bytes over an existing destination and touches nothing else. |
| UpdateHelper.Helper.ReplaceFile | cmd/update-helper/main_windows.go:140-152 | Every intermediate disk and the result are those of the replacement in the theorems. |
| UpdateHelper.Helper.Update | cmd/update-helper/main_windows.go:60-100 | Every intermediate disk, the config version and the state of the service are those of the run in the theorems. |
| SelfUpdateRuns.InstallsIncreaseIff | internal/updater/apply.go:79-120 | Over any run of stagings, starts of helpers, helper runs and restarts, without forced or unreadable versions and failing config writes: the triples put in place strictly increase exactly when each helper that installs has a version newer than the one loaded when it runs. |
| SelfUpdateRuns.InstallsIncrease | internal/updater/apply.go:79-120 | So they strictly increase from the initial one on, wherever stagings fall, while no helper is started before the last one has run. |
| SelfUpdateRuns.IncreasingPairs | internal/updater/updater.go:124-130 | In such a sequence no triple occurs twice. |
| SelfUpdateRuns.TwoHelpersGoBack | internal/updater/apply.go:101-120 | With two helpers waiting, the newer one running first, the older version is put in place last. |
| SelfUpdateRuns.TwoHelpersWait | internal/updater/apply.go:101-120 | Two helpers do wait like that when a newer version is staged and started after the first start. |
| SelfUpdateWitness.OlderIsInstalledLast | internal/updater/apply.go:56-121 | From any agent with nothing under way and any two newer versions, a run of six actions that installs the newer one and then the older one. |
| SelfUpdateWitness.ReversalHappens | internal/updater/apply.go:56-121 | That run for a service at 1.0.0 that is offered 1.0.1 and 1.0.2. |
| SelfUpdateRuns.StepIsConsistent | internal/updater/apply.go:79-120 | A staging of an unforced, readable offer, a start, or a helper whose config write works keeps the loaded version equal to the config and to the last install. |
| SelfUpdateRuns.ReinstallNeedsFailedWrite | cmd/update-helper/main_windows.go:79-82 | After an ordinary install the same version still counts as newer exactly when writing the config failed. |
| SelfUpdateRuns.TargetGenuineIff | internal/updater/apply.go:84-117 | Over any run, with stagings anywhere between the start of a helper and its work: the target was missing, original or announced bytes at every instant exactly when every helper that replaced it copied original or announced bytes. |
| SelfUpdateRuns.HelperIsGenuineIff | cmd/update-helper/main_windows.go:60-101 | The same for one helper. |
| SelfUpdateRuns.TargetIsAlwaysGenuine | internal/updater/apply.go:84-117 | Over any run in which no staging reaches the file of a helper between its start and its work, forced or not and with any failures, the target is at every instant missing, original, or bytes hashing to an announced value. |
| SelfUpdateRuns.StagingAfterStartTruncates | internal/updater/apply.go:84-120 | A staging of the same version that is cut short after the helper was started leaves its stump as the executable. |
| SelfUpdateWitness.StumpIsInstalled | internal/updater/apply.go:56-121 | From any agent with nothing under way and any newer version, a run of four actions after which the executable is a stump that is neither original nor announced. |
| SelfUpdateWitness.StumpHappens | internal/updater/apply.go:56-121 | That run for a service at 1.0.0 that is offered 1.0.1. |
| SelfUpdateRuns.RunGoesOn | cmd/service/core.go:270-298 | Every run goes on with every action, so no sequence of calls is left out. |
| SelfUpdateRuns.FileStays | internal/updater/updater.go:67-88 | A staged file that no staging reaches stays as it is or is taken away by a helper. |
| SelfUpdateRuns.FindStart | internal/updater/apply.go:101-120 | A helper that waits was started at some step whose verification succeeded, on the record pending there. |
| SelfUpdateRuns.HelperStartsOnAnnouncedFile | internal/updater/apply.go:84-117 | A helper is started only when the file of its record exists and hashes to an announced value. |
| SelfUpdateRuns.RunKeepsRecords | internal/updater/updater.go:90-103 | The pending record and those of waiting helpers always name the staged path of their own version. |
| SelfUpdateRuns.StagedIsApplied | internal/updater/apply.go:79-120 | What staging accepted, application accepts: only its own failures or settings keep the helper from starting. |
| SelfUpdateRuns.ChangesAreRuns | cmd/service/core.go:270-298 | A call that applies server changes is at most one staging and one start, in that order, or one start alone. |
| SelfUpdateRuns.ForcedOfferReinstalls | internal/updater/updater.go:46-55 | A forced offer of the installed version is installed again. |
| SelfUpdateRuns.PathsAreDistinct | internal/updater/updater.go:67 | With the executable outside the download directory, the five paths of an update never collide, for any version text. |
| SelfUpdateRuns.HelperVersion | cmd/update-helper/main_windows.go:79-82 | After the restart the loaded version is the new one exactly if the replacement and the config write worked. |
| SelfUpdateRuns.HelperRestarts | cmd/update-helper/main_windows.go:55-100 | Once the service could be stopped it comes back with the version of the config; the record goes exactly with a replacement whose cleaning up works. |
| SelfUpdate.Updater.StageIfNeeded | internal/updater/updater.go:33-107 | Nothing for an offer that is not wanted, success exactly when every step works; the disk and the record in each case, those of the staging in the theorems. |
| SelfUpdate.Updater.ApplyIfPending | internal/updater/apply.go:56-121 | A helper is started exactly when it can be, on the record as it is now; the verdict and the agent of the application in the theorems. |
| SelfUpdate.Updater.ApplySelfUpdateChanges | cmd/service/core.go:270-298 | With tasks pending at both looks no helper is started; an applicable record at an idle first look is started and nothing staged; a staging that works is started at an idle second look unless the application itself fails; a restart is requested exactly when a helper was started. |
| SelfUpdate.StageDecides | internal/updater/updater.go:33-107 | A staging succeeds exactly for a complete offer that is forced or newer when every step works and the hash is right; what it leaves at the path of the version and as record in every other case. |
| SelfUpdate.ApplyDecides | internal/updater/apply.go:56-121 | A helper is started exactly when settings, record, version, file and hash allow it, on that record; otherwise nothing changes. |
| SelfUpdate.ChangesDecide | cmd/service/core.go:270-298 | What both looks at the queue decide: an idle first look lets an applicable record go first; otherwise the offer is staged, and an idle second look lets the record be applied unless the staging failed. |
| SelfUpdate.SanitizedChars | internal/updater/updater.go:109-112 | Every separator, colon and space of a version becomes an underscore and nothing else changes. |
| RuntimeUpdate.ManagedFilesStayKnown | internal/runtimeupdate/manager.go:144-284 | Over any rounds with any failures, a managed file and its backup are at every instant an original of that file or bytes hashing to its own entry in a fetched manifest: never a partial download, never the other file. |
| RuntimeUpdate.SyncIsClean | internal/runtimeupdate/manager.go:144-158 | One round keeps that for both files, each by its own originals and entries. |
| RuntimeUpdate.EnsureLeavesOther | internal/runtimeupdate/manager.go:183-239 | Work on one managed file never touches the other one or its backup. |
| RuntimeUpdate.ReplaceEnds | internal/runtimeupdate/manager.go:269-284 | Where the file ends up for every combination of failures. |
| RuntimeUpdate.OneFaultIsHarmless | internal/runtimeupdate/manager.go:269-284 | With at most one failing remove or rename the old or the new bytes are in place. |
| RuntimeUpdate.LosesFileIff | internal/runtimeupdate/manager.go:269-284 | Exactly which failures lose a file that was there. |
| RuntimeUpdate.EnsureSucceeds | internal/runtimeupdate/manager.go:183-239 | When the check of a file succeeds it matches its manifest entry, unless there is none or the helper is running. |
| RuntimeUpdate.SyncSucceeds | internal/runtimeupdate/manager.go:144-158 | A round that succeeds leaves both files so. |
| RuntimeUpdate.EnsureSucceedsIff | internal/runtimeupdate/manager.go:183-239 | The check of a file succeeds exactly when there is no entry or no hash, the file there matches, or a complete download with the right hash arrives and the helper is running or the move into place works. |
| RuntimeUpdate.EnsureEnds | internal/runtimeupdate/manager.go:183-239 | What a check leaves at the file, its backup and its temporary path: nothing touched without need or download, the download in place and the old file as backup after a success, the temporary file gone after a complete download. |
| RuntimeUpdate.SyncSucceedsIff | internal/runtimeupdate/manager.go:144-158 | A round succeeds exactly when the manifest arrives and both checks go well, each judged by the disk before the round. |
| RuntimeUpdate.FailingTrayStopsRound | internal/runtimeupdate/manager.go:144-158 | Without a manifest nothing happens, and when the check of the tray fails the helper is not touched at any instant. |
| RuntimeUpdate.RunningHelperIsLeft | internal/runtimeupdate/manager.go:225-228 | While the helper runs a round leaves its file and backup as they were. |
| FileHash.LowerAt | pkg/utils/hash.go:11-12 | Each capital letter of an expected hash is lowered and nothing else changes. |
| FileHash.PrefixIsOptional | pkg/utils/hash.go:11-26 | The prefix sha256: of an expected hash is ignored, in any case of its letters. |
| RuntimeUpdate.FileKeeper.ReplaceFile | internal/runtimeupdate/manager.go:269-284 | Every intermediate disk and the result are those of the replacement in the theorems. |
| RuntimeUpdate.FileKeeper.EnsureFile | internal/runtimeupdate/manager.go:183-239 | Every intermediate disk of the check in the theorems, and success exactly when it goes well. |
| RuntimeUpdate.FileKeeper.InstallFile | internal/runtimeupdate/manager.go:212-238 | A finished download: success exactly when it has the right hash and the helper is running or the move into place works; the temporary file is removed on every path. |
| RuntimeUpdate.FileKeeper.SyncOnce | internal/runtimeupdate/manager.go:144-158 | Every intermediate disk of the round in the theorems, and success exactly when the manifest arrives and both checks go well. |
| ConfigWake.MissedConfigIsAnnounced | internal/runtimeupdate/manager.go:67-113 | A stored config the loop has not taken is announced by a token or a pending post. |
| ConfigWake.BlockedLoopIsCurrent | internal/runtimeupdate/manager.go:67-113 | With any number of concurrent updates, a loop blocked on an empty channel with no call between store and post has taken the current config. |
| ConfigWake.LoopNeverSpins | internal/runtimeupdate/manager.go:78-136 | Whatever configs arrive, each wait of the loop is that of the config it took and at least a minute. |
| ConfigWake.StoredAsGiven | internal/runtimeupdate/manager.go:67-125 | Every config stored is kept as given when valid, and otherwise with an hour for an interval that is not positive and no jitter for a negative one. |
| ConfigWake.NextRoundTakesCurrent | internal/runtimeupdate/manager.go:78-113 | A wait can end at any time, or at a token, which is then used up; the next round takes the config current then. |
| ConfigWake.Manager.UpdateConfig | internal/runtimeupdate/manager.go:67-76 | The current config is the given one when that is valid, with defaults for invalid numbers, and a token is in the channel, whether or not there was one. |
| ConfigWake.Manager.StoreConfig | internal/runtimeupdate/manager.go:67-71 | The locked part is one step of the transition system. |
| ConfigWake.Manager.PostWake | internal/runtimeupdate/manager.go:72-75 | The non-blocking post is one step of it. |
| ConfigWake.Manager.SnapshotConfig | internal/runtimeupdate/manager.go:138-142 | The loop takes the config stored last, and works with it if it names a server and else waits a minute. |
| ConfigWake.Manager.ReceiveWake | internal/runtimeupdate/manager.go:107-109 | Receiving a token empties the channel and starts a new round. |
| Downloader.AttemptKeepsPart | internal/downloader/downloader.go:58-108 | Against a server that honours sections 14.2 and 15.3.7 of RFC 9110 for one payload, with a 206 that may carry only a beginning of the requested range: an attempt keeps the file a prefix, a 206 never shrinks it, and a success completes it exactly when the answer was 200 or went to the end of the payload. |
| Downloader.RunKeepsPart | internal/downloader/downloader.go:46-109 | After any number of attempts cut off anywhere, the file is a prefix of the payload. |
| Downloader.SuccessIsCompleteIff | internal/downloader/downloader.go:46-109 | After any attempts cut off anywhere, a success leaves exactly the payload exactly when its answer went to the end of it. |
| Downloader.ShortAnswerSucceeds | internal/downloader/downloader.go:79-108 | A concrete server within its rights whose short 206 gives a success with an incomplete file. |
| Downloader.OwnServerCompletes | AppCenter_Technical_Specification_v1_1.md:1015-1053 | From the server this system specifies, which sends all the rest, be it empty, every success after any attempts leaves exactly the payload. |
| Downloader.ResumeIsExactIff | internal/downloader/downloader.go:83-108 | When the file is a beginning of the payload and a 206 carries its bytes `first` to `end`, a success leaves the payload exactly when these are the missing bytes; when one of the two ends is right, exactly when both are. |
| Downloader.WrongRangeSucceeds | internal/downloader/downloader.go:83-108 | A concrete server whose 206 carries another range: the download succeeds with the wrong bytes. |
| Downloader.CompleteFileNeedsAnswer | internal/downloader/downloader.go:58-81 | A complete file is only fetched again from a server that answers the request past its end with everything or with an empty 206; any other answer, 416 among them, fails and leaves it. |
| StagedDownload.CanStageAgainIff | internal/updater/updater.go:69-103 | A version whose file is complete can be staged by some later retries exactly when the server answers the request past the end of the file with the whole payload or with an empty 206. |
| StagedDownload.OwnServerStagesAgain | AppCenter_Technical_Specification_v1_1.md:1015-1053 | The server this system specifies does so; one that honours ranges and answers 416 does not. |
| StagedDownload.FailedMetadataLeavesFile | internal/updater/updater.go:90-103 | A staging whose metadata could not be written leaves such a file. |
| StagedDownload.RetriesFail | internal/updater/updater.go:69-79 | Without such an answer any number of retries changes nothing. |
| Downloader.CopiedTo | internal/downloader/downloader.go:101-104 | The copy never passes the end of the body, and ends well only at its end. |
| Downloader.CopySucceedsIff | internal/downloader/downloader.go:101-104 | The copy ends well exactly when its reads reach the end of the body with none of them refused, broken or short. |
| Downloader.CopyStopsAt | internal/downloader/downloader.go:101-104 | At the first read that is not clean the copy stops with what had arrived; a refused read leaves nothing, a short one what the file took. |
| Downloader.AttemptSucceedsIff | internal/downloader/downloader.go:46-109 | For every file, missing and empty ones included: an attempt succeeds exactly with a positive limit, status 200 or 206, a file that opens and a copy that ends well; the count is the length of the body, which follows the old bytes after a 206 and is otherwise all there is. A refusal before opening leaves the file. |
| Downloader.AttemptStopsAt | internal/downloader/downloader.go:58-104 | An attempt stopped by a read keeps what had arrived, after the old bytes of a resumed file or instead of the file. |
| Downloader.Download.ReadLimited | internal/downloader/downloader.go:23-31 | A refusal of the rate limiter drops the bytes just read. |
| Downloader.Download.CopyBody | internal/downloader/downloader.go:101-104 | The file grows by exactly the counted prefix of the body, for every sequence of reads. |
| Downloader.Download.DownloadFileWithMeta | internal/downloader/downloader.go:46-109 | The file and the result are those of the attempt in the theorems, for every server and failure. |
| Heartbeat.StoredMatchesAnnounced | internal/heartbeat/heartbeat.go:147-193 | In any run, through failed collections, lost responses and enabling or disabling, a receiver of every request holds a list with the announced hash. |
| Heartbeat.HashOnlyRepeatsLatestList | internal/heartbeat/heartbeat.go:147-193 | A request with a hash and no list repeats the hash of the latest request that carried a list. |
| Heartbeat.SenderRemembersStored | internal/heartbeat/heartbeat.go:186-192 | The remembered hash is that of the list the receiver holds. |
| Heartbeat.ListsCarryTheirHash | internal/heartbeat/heartbeat.go:186-190 | A request that carries a list carries the hash of it. |
| Heartbeat.RequestRules | internal/heartbeat/heartbeat.go:147-193 | A disabled sender sends nothing, one that collects nothing repeats the remembered hash, and a list goes out exactly when asked for or when, after the interval or before any list, the hash is new. |
| Heartbeat.NamedOfBoth | internal/heartbeat/heartbeat.go:172-184 | Dropping the rows without a name keeps the order of the others. |
| Heartbeat.LatestSettingStands | internal/heartbeat/heartbeat.go:329-350 | Each setting keeps the value of the latest response that gave a valid one. |
| Heartbeat.SwitchedOffIsSilent | internal/heartbeat/heartbeat.go:147-193 | Once a response switched the snapshot off no request carries a hash or a list until another one switches it on. |
| Heartbeat.WireAgreementIff | internal/api/client.go:156-157 | With an empty list omitted by the encoding, agreement holds exactly when the latest collection that led to a list had a row with a name. |
| Heartbeat.EmptyListIsMissed | internal/api/client.go:156-157 | A concrete run in which the server hears the hash of the empty list and still holds the old one. |
| Heartbeat.HeldOnWire | internal/api/client.go:156-157 | A receiver behind the encoding never stores an empty list, and stores every other latest one. |
| Heartbeat.LostListIff | internal/heartbeat/heartbeat.go:151-192 | After a list whose request got no answer, over any beats at any times: another list is sent exactly when, with the snapshot on and collected, a sync was asked for or after the interval the hash is another one. |
| Heartbeat.LostListIsNotResent | internal/heartbeat/heartbeat.go:151-192 | So no later beat sends it while nobody asks for a sync and every collection has the same hash. |
| Heartbeat.NextListHasReason | internal/heartbeat/heartbeat.go:186-192 | The first list after a lost one follows a sync request or a collection with another hash. |
| Heartbeat.FirstListIsLost | internal/heartbeat/heartbeat.go:151-192 | A concrete run: the first list gets no answer, and an hour later the hash comes alone. |
| Heartbeat.SyncRepairs | internal/heartbeat/heartbeat.go:336-340 | After a response that asks for a sync, every beat whose collection works carries the full list, until a response withdraws it or switches the snapshot off. |
| Heartbeat.Sender.MaybeAttachServices | internal/heartbeat/heartbeat.go:147-193 | The remembered fields and the request are those of the beat in the theorems; rows without a name are dropped. |
| Heartbeat.Sender.SendOnce | internal/heartbeat/heartbeat.go:306-353 | The settings of a response take effect after its request, each only if present and valid. |
| Heartbeat.Sender.constructor | internal/heartbeat/heartbeat.go:82-97 | Services start disabled, with a 10-minute interval and nothing remembered. |
| WsClient.AuthFirst | internal/wsconn/client.go:153-244 | On every connection, nothing the server sends reaches a callback and nothing is announced as connected before its dial, request and accepted reply; each callback gets the message that just arrived, and each pong the id of the ping. |
| WsClient.NoneDropped | internal/wsconn/client.go:248-323 | In the message loop every message that has a callback is handed to it at once. |
| WsClient.AnnouncedOnce | internal/wsconn/client.go:123-131 | OnConnected is called once, exactly after a completed handshake, and OnDisconnected once at the end of the round. |
| WsClient.ConnectedIff | internal/wsconn/client.go:153-231 | The connection is announced exactly when dial, request, an auth.ok or an auth.result with ok=true, hello and a reply to it went well. |
| WsClient.HandshakeInOrder | internal/wsconn/client.go:153-231 | Each step of the handshake is taken, in its place, exactly when the one before it went well. |
| WsClient.TurnAdds | internal/wsconn/client.go:248-323 | What each message adds, by its kind: a pong, its callback, and a trigger only for a signal or a required inventory sync; nothing after a ping that cannot be answered. |
| WsClient.RoundEnteredIff | internal/wsconn/client.go:117-149 | A round is entered exactly when no round before it saw the context cancelled. |
| WsClient.WaitOfRound | internal/wsconn/client.go:123-149 | A round that is followed by a wait waits for min after a connection, and after k failures before it for min * 2^k cut at max. |
| WsClient.DisconnectBetweenConnects | internal/wsconn/client.go:114-151 | Over any run of the reconnect loop, two OnConnected calls have an OnDisconnected between them. |
| WsClient.BackoffDoubles | internal/wsconn/client.go:114-151 | After k straight handshake failures the backoff is min * 2^k cut at max, and min again after any completed handshake. |
| WsClient.BackoffIsBounded | internal/wsconn/client.go:147-149 | The backoff exceeds max exactly when min does and the last handshake completed or none was tried. |
| WsClient.TickSkippedIff | internal/heartbeat/heartbeat.go:117-133 | In every interleaving, a timer tick is skipped exactly while the client is between OnConnected and the following OnDisconnected, on an authenticated connection. |
| WsClient.ActiveIffUp | cmd/service/core.go:336-350 | The flag is set exactly while the connection is announced and its end is not. |
| WsClient.TriggerIsServed | internal/heartbeat/heartbeat.go:100-131 | Once the trigger channel is empty again, a heartbeat was sent after the trigger. |
| WsClient.DisconnectTriggers | cmd/service/core.go:345-350 | Every lost connection triggers a heartbeat next. |
| WsClient.TraceRounds | internal/wsconn/client.go:117-149 | A run is one round after another, each with the backoff the earlier ones left; only the last may have seen the context cancelled. |
| WsClient.Client.constructor | internal/wsconn/client.go:81-110 | Reconnect limits that are not positive become 2 and 60 seconds. |
| WsClient.Client.HandleTurn | internal/wsconn/client.go:254-322 | Each message type leads to the events of the theorems; only a pong that cannot be written ends the loop. |
| WsClient.Client.MessageLoop | internal/wsconn/client.go:248-324 | The loop over all messages up to the one that breaks it. |
| WsClient.Client.Greet | internal/wsconn/client.go:153-231 | The handshake in its order, stopped by whichever step fails; a reply other than server.hello still completes it. |
| WsClient.Client.ConnectAndServe | internal/wsconn/client.go:153-246 | An error exactly for a handshake that did not complete or a cancelled context; the connection is forgotten at the end. |
| WsClient.Client.RunRound | internal/wsconn/client.go:117-149 | One round with its announcements, wait and next backoff, wherever the context is cancelled. |
| WsClient.Client.Run | internal/wsconn/client.go:114-151 | The history of the whole loop is the trace the theorems are about. |
| WsClient.HeartbeatLoop.Turn | internal/heartbeat/heartbeat.go:117-131 | A tick sends unless the flag is set; a trigger is used up and sends always. |
| WsClient.HeartbeatLoop.Follow | internal/heartbeat/heartbeat.go:117-131 | Each step of the interleaving changes the loop as the transition system has it. |

## Left out

- RotatingLog: an `os.Stat` that fails on an existing file during a rotation (the model decides by existence), and files deleted or written by other programs.
- RotatingLog: the 64-bit overflow of a configured size of more than 2^43 MiB.
- Tasks: the 64-bit overflow of retry delays, which needs more than 30 million failures of one task; monotonicity of the clock is assumed.
- TaskService.ProcessCommands: the serialisation of its callers by `stateMu` is built in (a call starts with the driver idle); consumers of the apps ledger interleave freely in `TaskLedger`.
- Work hours and server time: `shouldExecuteNow` is constantly true, so nothing is gated.
- RemoteSession.SessionManager.HandleRequest: the method covers a request nobody disturbs; interleavings are proved on the transition system, whose steps one after the other leave the same session. VNC processes, ports, dialogs and passwords are merged into success or failure of a step.
- Versions: Go's regular expression engine and `strconv` are modelled for this one pattern; other Unicode handling is not.
- UpdateHelper: missing command-line arguments end the helper before it does anything, as a failed stop does; a stop that times out and takes effect later is not modelled, and waiting for the service to run does not change anything.
- SelfUpdateRuns: two helpers that wait run one after the other; their file operations are not interleaved, and neither are those of two stagings.
- SelfUpdate: the metadata file is absent, garbled or the record that was written; JSON is not modelled. That the service's executable lies outside the download directory (`Apart`) is assumed, as the code does not check it.
- SelfUpdateRuns: the download inside a staging leaves any content; how it resumes is in `Downloader` and `StagedDownload`.
- RuntimeUpdate: fetching and decoding the manifest, trimming of its values, stopping processes, and the tray callback.
- ConfigWake: trimming of the base address, and intervals so long that the wait overflows 64-bit nanoseconds.
- Downloader: the bandwidth bound of the rate limiter, a wait that refuses is any failure; file names from `Content-Disposition`.
- Heartbeat: collection of services, the system profile, inventory hash and other request fields; the time of the interval check and the time recorded as sent are one instant.
- WsClient: message encoding, `SendMessage` from other goroutines, jitter of the wait (the wait is its base value), overflow of configured seconds beyond 64-bit nanoseconds.
- WsClient.Client.Run: a cancelled context ends the run without OnDisconnected, so the timer stays silent; the program is stopping then.
- HTTP, named pipes, registry, services, inventory, announcements, tray, installers and configuration defaults: foreign effects or user interface.
