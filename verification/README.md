# Verification of the Facebook monitor's core

This project models the monitor's decision logic in Dafny 4.11 and proves properties of it over all inputs and all
runs. `dafny verify dfyconfig.toml` checks everything.

## What is modelled

**The target runtime protocol.** Each monitored target has a row in the targets table and a runtime row with a status
(idle, queued, running, error). `RuntimeRows` holds the row, the pure state builders and the repository's conditional
UPDATE statements as partial functions. `RuntimeProtocol` turns every service call into a step of a state machine
(28 row operations, upsert, delete, status changes, pause-all and the two recovery sweeps) and defines runs. The
service classes (`RuntimeAccess`, `RuntimeOwnership`, `RuntimeOutcomes`, `RuntimeLifecycle`, `RuntimeRequests`,
`RuntimeRecovery`, `MonitoringCommands`) are imperative: each method changes the two tables the way the source does,
and its contract says that the new tables are exactly the protocol's step. The main results are about runs:
`OwnerFencing`, `ScanRequests`, `FailureStreak`, `SkipStreak`, `TableAgreement`, `RecoverySweep` and `OwnerLiveness`.
`RowEffects` and `EventEffects` state what every call and event does field by field, without the state builders, and
`Admission` when a scan may start. `ScanFailurePolicy` is the failure policy itself.

Assumptions of the run theorems: the clock does not go back, and every claim reads a later time than the event before
it (`OwnerFencing.Timeline`). An owner is the pair of worker id and start time; the page id is an extra conjunct of
the guards. One service call is one step; a decide call and the write that follows it are two separate steps, and
`OwnerFencing.DecisionStaysCurrent` shows that a guarded write never commits a decision that has become outdated.

**Keyword matching and highlighting.** `KeywordText` (normalisation), `Ranges` (range merging), `KeywordRules`
(parsing, printing, the shared-scan matchers), `KeywordTerms` (what a rule text asks for), `KeywordExclude` (masking,
the compiled matcher), `KeywordSpaces` (spaces inside exclude terms), `KeywordConfigs` (eligibility in terms of the
settings), `KeywordHighlight` and `HighlightSources` (the highlighter and its index map), `KeywordAgreement` (what the
matcher reports is what is highlighted), `KeywordGroups` and `ConfigMerge` (group normal form, config patches). NFKC
and lower-casing are a pair of functions from a character to a string. `KeywordText.Regular` states what is assumed of
them where it is needed: white space folds to non-empty white space, no zero-width character is produced, and
lower-casing keeps a character's being white space. Python strings are sequences of characters, and one list of code
points counts as white space for both `\s` and `strip`.

**The collection loop.** `CollectionLoop` models the multi-round loop with callbacks that may answer differently each
time they are called and may raise; `CollectionReport` says what a run reports and why it goes on or ends. The
synchronous and the asynchronous function have the same body and share the model.

**Three smaller pieces.** `Versions` (version parsing, printing, ordering and the updater's next version),
`SidebarLayout` (layout validation and writing), and the group normal form above.

## Where the code and expectations differ

- A stored failure count does not always replay to the live decision. `ScanFailurePolicy.ReplayAgrees` gives the exact
  condition: it fails just for a scheduler_stopping failure that is not a scheduler cancel and follows two failures of
  the same reason.
- Masking ignore phrases with spaces is exact, and ignoring more never makes a rule fire, only for terms without a
  space. Rule texts are split at spaces, but compatibility folding can put a space back inside a term, as the acute
  accent U+00B4 does after a letter. `KeywordExclude.MaskingIsExactWithoutSpaces` and
  `KeywordSpaces.IgnoringMoreIsSafeWithoutSpaces` are the two if-and-only-ifs, over phrases and texts a matcher can
  meet; `KeywordSpaces.IgnoringMoreCanExclude` is a configuration that parses to such a rule and for which an added
  ignore value turns an eligible text ineligible. (A term that holds a space and every other character there is would
  be exact too.)
- The collection loop's bound of three rounds per wanted item needs a merge callback that reports growth truthfully;
  `CollectionLoop.BoundsAreReached` shows what happens otherwise.
- A request is told from the admissions before it by clock readings. One whose reading is not later than a stamp the
  row already carries can be taken for served; `ScanRequests.OnlyAnsweredAreDropped` gives the exact condition, and
  `ScanRequests.RequestSurvives` holds outside it.
- The error state built for a terminal failure has no scan request, but the repository's guarded save keeps a stored
  request that is newer than the attempt (`ScanRequests.TerminalFailureKeepsNewRequest`).

## Model

| member | source | states |
|---|---|---|
| `OwnerFencing.FencedForever` | src/facebook_monitor/application/target_runtime_ownership.py:94-140 | In every run: once an owner (worker, start time) does not hold the row, every later guarded idle, skip, failure, cancel, retry, heartbeat or reload call naming that owner on a target that has a row leaves the whole database unchanged, also after new claims by the same worker id |
| `OwnerFencing.LostForever` | src/facebook_monitor/application/target_runtime_outcomes.py:52-70 | An owner that has lost its row by stop, start, recovery, a retry write or deletion never holds it again, because every claim reads a strictly later clock |
| `OwnerFencing.OwnershipEnds` | src/facebook_monitor/application/target_runtime_lifecycle.py:25-70 | Exactly the listed calls take a held row from its owner: the unguarded outcomes, stop, start, restart retry, recovery of a stale row, and guarded writes that name the holder; an if-and-only-if per call |
| `OwnerFencing.OnlyItsClaimGrants` | src/facebook_monitor/application/target_runtime_ownership.py:58-140 | No call other than a claim at exactly the owner's start time can make that owner hold a row |
| `OwnerFencing.OwnerSeesStableRow` | src/facebook_monitor/application/target_runtime_outcomes.py:300-354 | Over any run, an owner that holds the row at two moments held it at every moment between, and desired state, status, stamps, owner, failure streak and skip streak were the same throughout |
| `OwnerFencing.DecisionStaysCurrent` | src/facebook_monitor/application/target_runtime_outcomes.py:282-354 | Decide-then-write is atomic in effect: whenever a guarded failure write commits, its decision is the one the row at commit time gives, however many calls came between |
| `OwnerFencing.GuardRejects` | src/facebook_monitor/persistence/repositories/target_runtime_state.py:339-377 | A guarded call by a non-owner commits nothing |
| `Admission.ClaimIsGranted` | src/facebook_monitor/persistence/repositories/target_runtime_state.py:123-165 | A claim is granted if and only if the row is active and idle or queued; the row it leaves is running, held by this worker since now on the given page, with a heartbeat now, and request, streaks and enqueue time as they were |
| `Admission.EnqueueIsGranted` | src/facebook_monitor/persistence/repositories/target_runtime_state.py:167-205 | An enqueue is granted if and only if the row is active and idle; the row it leaves is queued for the reason, stamped now, owned by nobody, with request and streaks as they were |
| `Admission.EnqueuedCanBeClaimed` | src/facebook_monitor/application/target_runtime_ownership.py:41-56 | Whatever was enqueued can be claimed next by any worker, and after that no other claim or enqueue is granted |
| `Admission.EndedCanBeEnqueued` | src/facebook_monitor/application/target_runtime_transitions.py:38-185 | Whatever ends an attempt of an active target leaves a row that can be enqueued again, unless it was a terminal failure, after which neither enqueue nor claim is granted |
| `RowEffects.CommitsExactly` | src/facebook_monitor/persistence/repositories/target_runtime_state.py:123-656 | For each of the 28 calls, the condition on the row's fields under which it takes effect, and no other |
| `RowEffects.RefusedChangesNothing` | src/facebook_monitor/application/target_runtime_ownership.py:94-140 | A call whose condition fails changes nothing, but a refused claim is counted and noted |
| `RowEffects.StatusEffect` | src/facebook_monitor/application/target_runtime_transitions.py:20-248 | The status after any call that takes effect: queued, running, error, idle or as it was |
| `RowEffects.RequestEffect` | src/facebook_monitor/application/target_runtime_transitions.py:20-248 | The pending request after any call that takes effect: made now, cleared, kept when newer than the attempt, or as it was |
| `RowEffects.HeartbeatEffect` | src/facebook_monitor/persistence/repositories/target_runtime_state.py:232-267 | Starts, heartbeats, reloads and outcomes stamp the last sign of life with their time, resets clear it, no other call touches it |
| `RowEffects.FailureCountEffect` | src/facebook_monitor/application/target_runtime_transitions.py:38-185 | The failure count after any call that takes effect: the decision's streak, zero, or as it was |
| `RowEffects.SkipCountEffect` | src/facebook_monitor/application/target_runtime_transitions.py:38-185 | The skip count after any call that takes effect: the decision's streak, zero after a success, a failure or a reset, or as it was |
| `RowEffects.WorkerEffect` | src/facebook_monitor/application/target_runtime_transitions.py:20-248 | The worker after any call that takes effect: the one that started, nobody, or as it was |
| `ScanRequests.NoLostRequest` | src/facebook_monitor/application/target_runtime_transitions.py:235-248 | Over any run of calls that do not forfeit requests by design, a request made at time r is still pending with a time of r or later unless the history holds an enqueue or claim at r or later |
| `ScanRequests.RequestSurvives` | src/facebook_monitor/application/target_runtime_requests.py:39-51 | Over any run, from a scan request on: at every later moment it is pending with its time or a later one, or an enqueue or claim at its time or later lies in between |
| `ScanRequests.RequestIsRecorded` | src/facebook_monitor/application/target_runtime_requests.py:39-51 | Asking for a scan records the time on every row, whatever its status, and changes nothing else but the update time |
| `ScanRequests.OnlyAnsweredAreDropped` | src/facebook_monitor/application/target_runtime_transitions.py:235-248 | The condition on the clock readings is exact: a call that neither admits nor forfeits can drop a request if and only if the row's own stamps are not before it |
| `ScanRequests.RetryAsksForScan` | src/facebook_monitor/application/target_runtime_transitions.py:20-35 | A retry after a lock or a restart that takes effect leaves an idle row with a request made now, or a newer one than the attempt's start |
| `ScanRequests.CallKeepsRequest` | src/facebook_monitor/application/target_runtime_requests.py:39-85 | For each of the 28 calls: a pending request stays pending, or the row already records an admission since, or this call is one, or the call is one that forfeits |
| `ScanRequests.ForfeitingDrops` | src/facebook_monitor/application/target_runtime_requests.py:53-85 | The excluded calls are exactly characterised: each of them leaves no request pending |
| `ScanRequests.ServedClearIsSafe` | src/facebook_monitor/application/target_runtime_requests.py:67-85 | Clearing with the request time observed before the enqueue, as the scheduler does right after enqueueing, never forfeits a request |
| `ScanRequests.TerminalFailureKeepsNewRequest` | src/facebook_monitor/persistence/repositories/target_runtime_state.py:48-54 | A guarded terminal failure of an active target ends in ERROR and keeps a request exactly when it is newer than the attempt's start |
| `FailureStreak.StreakSummarisesHistory` | src/facebook_monitor/application/target_runtime_transitions.py:38-185 | At every point of every run the stored (reason, count) is the length of the latest same-reason run of counted failures since the last success, stop, start, uncounted or terminal-uncounted failure; skips and retry writes leave no trace; a guarded failure may be decided at any earlier moment at which its owner held the row, an unguarded one on the row it writes |
| `FailureStreak.CurrentRunIsSummarised` | src/facebook_monitor/application/target_runtime_transitions.py:91-185 | The same for runs whose committed failure writes carry decisions on the row they write |
| `FailureStreak.DecidedRunIsCurrent` | src/facebook_monitor/application/target_runtime_outcomes.py:282-354 | Fencing discharges that condition: in a run whose guarded failures were decided while their owner held the row, every committed failure carries the decision the row at commit time gives |
| `FailureStreak.RunLengthIsMaximal` | src/facebook_monitor/core/scan_failure_policy.py:232-242 | The counted run is the longest ending of the history made of counted failures with the reason |
| `FailureStreak.LimitEndsInError` | src/facebook_monitor/core/scan_failure_policy.py:169-251 | In such a run, the k-th failure of a same-reason run leaves the row in ERROR exactly when k is at least the reason's limit, and idle otherwise |
| `FailureStreak.CountedWrite` | src/facebook_monitor/core/scan_failure_policy.py:232-251 | A committed counted failure, a stale recovery included, moves the stored pair by one streak step |
| `FailureStreak.SummaryIsUnique` | src/facebook_monitor/core/scan_failure_policy.py:232-242 | A history has only one such summary, so the stored pair is determined by what happened |
| `SkipStreak.SkipsSummariseHistory` | src/facebook_monitor/application/target_runtime_transitions.py:64-88 | At every point of every run whose skips are decided while their owner holds the row, the stored skip pair is the length of the latest same-reason run of skips since the last success, failure, stop or start |
| `SkipStreak.SkipEscalatesAtLimit` | src/facebook_monitor/application/target_runtime_outcomes.py:105-126 | In such a run the k-th skip of a same-reason run escalates exactly when k reaches the limit |
| `TableAgreement.AgreementIsInvariant` | src/facebook_monitor/application/target_monitoring_commands.py:92-134 | In every reachable state every target has exactly one runtime row, its desired state is ACTIVE exactly when the target is enabled and not paused, and no two targets share a kind and scope |
| `TableAgreement.OnlyActiveTargetsAreAdmitted` | src/facebook_monitor/application/target_runtime_access.py:28-56 | While the tables agree, a committed enqueue or claim is on an enabled, unpaused target |
| `TableAgreement.PauseAllStopsEverything` | src/facebook_monitor/application/target_monitoring_commands.py:194-212 | After pause-all no target is active, the active ones have fresh stopped rows, all other rows are untouched, and no enqueue or claim commits on any row at any time |
| `EventEffects.RegistrationStartsPaused` | src/facebook_monitor/core/models.py:225-285 | A newly registered target is enabled but paused, its row is stopped and untouched, and neither enqueue nor claim is granted on it |
| `EventEffects.RegistrationKeepsSwitches` | src/facebook_monitor/application/target_registry_service.py:156-201 | Registering a known target again changes its details and nothing else |
| `EventEffects.SwitchingResets` | src/facebook_monitor/application/target_monitoring_commands.py:92-114 | Switching writes both switches and leaves an untouched row that is active exactly when the target is enabled and not paused |
| `EventEffects.RestartingAsks` | src/facebook_monitor/application/target_monitoring_commands.py:116-134 | Restarting enables and unpauses, and leaves an idle active row with a request made now; only guard count and last reload survive |
| `EventEffects.PauseAllPausesTheActive` | src/facebook_monitor/application/target_monitoring_commands.py:194-212 | Pause-all pauses exactly the active targets and resets exactly their rows |
| `EventEffects.OthersAreLeftAlone` | src/facebook_monitor/application/target_runtime_access.py:28-56 | An event about one target leaves every other target and its row alone |
| `EventEffects.CallActsOnItsRow` | src/facebook_monitor/application/target_runtime_access.py:28-56 | A call acts on the target's row, or on a fresh one wanted as the switches say; for an unknown target, an inactive one where an active one is needed, or a missing row where one is needed, nothing changes |
| `RecoverySweep.RunningSweepIsExact` | src/facebook_monitor/application/target_runtime_recovery.py:51-115 | One sweep changes exactly the stale RUNNING rows with a start time: active ones get one counted stale failure, inactive ones go to IDLE without a request; all others are unchanged and a second sweep at the same time changes nothing |
| `RecoverySweep.QueuedSweepIsExact` | src/facebook_monitor/application/target_runtime_recovery.py:117-147 | The queued sweep sends exactly the stale active QUEUED rows back to IDLE with request, streaks and stamps kept, and leaves none recoverable |
| `OwnerLiveness.SweepTakesTheSilent` | src/facebook_monitor/persistence/repositories/target_runtime_state.py:687-707 | In the row's own fields: the sweep takes a running row with a recorded start out of running if and only if its last heartbeat, or its update time without one, is at or before the window's edge; any other row is as it was |
| `OwnerLiveness.SweepTakesTheForgotten` | src/facebook_monitor/persistence/repositories/target_runtime_state.py:709-730 | The same for active queued rows and their enqueue time |
| `OwnerLiveness.LivingOwnerIsLeftAlone` | src/facebook_monitor/application/target_runtime_recovery.py:51-115 | Over any run: an owner that started, beat or reloaded less than the window ago and still holds its row is left alone by the sweep |
| `OwnerLiveness.FreshlyQueuedIsLeftAlone` | src/facebook_monitor/application/target_runtime_recovery.py:117-147 | Over any run: a row enqueued less than the window ago is left alone by the queued sweep, whatever came between |
| `RuntimeProtocol.StepOnRow` | src/facebook_monitor/application/target_runtime_access.py:28-56 | Every event of the state machine acts on every existing row through one row operation, so facts about one call hold for the whole database |
| `RuntimeProtocol.StepOnNewRow` | src/facebook_monitor/application/target_runtime_access.py:28-42 | A row that appears was created fresh from the target's switches and acted on at most once |
| `RuntimeAccess.TargetRuntimeAccess.EnsureRuntimeState` | src/facebook_monitor/application/target_runtime_access.py:28-42 | Inserts a missing row with the desired state the target's switches give, and otherwise changes nothing |
| `RuntimeOwnership.TargetRuntimeOwnershipService.TryMarkTargetQueued` | src/facebook_monitor/application/target_runtime_ownership.py:41-56 | The new state is the protocol's enqueue step; the answer says whether it committed and shows the row as stored |
| `RuntimeOwnership.TargetRuntimeOwnershipService.TryClaimTargetRunning` | src/facebook_monitor/application/target_runtime_ownership.py:94-140 | The new state is the protocol's claim step: a claimed row, or the same row with the refusal noted; the answer is the claimed row if any (when a claim is granted: Admission.ClaimIsGranted) |
| `RuntimeOwnership.TargetRuntimeOwnershipService.MarkTargetRunning` | src/facebook_monitor/application/target_runtime_ownership.py:58-81 | The forced start is the protocol's step on the stored row |
| `RuntimeOwnership.TargetRuntimeOwnershipService.MarkTargetPageReloaded` | src/facebook_monitor/application/target_runtime_ownership.py:142-162 | The unguarded reload is the protocol's step |
| `RuntimeOwnership.TargetRuntimeOwnershipService.GuardedMarkTargetPageReloaded` | src/facebook_monitor/application/target_runtime_ownership.py:179-199 | Commits only for the row's owner |
| `RuntimeOwnership.TargetRuntimeOwnershipService.RecordTargetHeartbeat` | src/facebook_monitor/application/target_runtime_ownership.py:201-220 | Writes a running row of that worker, or of any worker when none is named; answers the stored row |
| `RuntimeOwnership.TargetRuntimeOwnershipService.GuardedRecordTargetHeartbeat` | src/facebook_monitor/application/target_runtime_ownership.py:222-239 | Commits only for the row's owner |
| `RuntimeOwnership.TargetRuntimeOwnershipService.RecordScanGuardSkip` | src/facebook_monitor/application/target_runtime_ownership.py:241-251 | Counts the skipped admission on the stored row |
| `RuntimeOutcomes.TargetRuntimeOutcomeService.MarkTargetIdle` | src/facebook_monitor/application/target_runtime_outcomes.py:30-37 | The unguarded success write is the protocol's step |
| `RuntimeOutcomes.TargetRuntimeOutcomeService.MarkTargetIdleIfNotRunning` | src/facebook_monitor/application/target_runtime_outcomes.py:44-50 | The same, refused while the row is running |
| `RuntimeOutcomes.TargetRuntimeOutcomeService.GuardedMarkTargetIdle` | src/facebook_monitor/application/target_runtime_outcomes.py:52-70 | The same, committed only for the row's owner and sparing newer requests |
| `RuntimeOutcomes.TargetRuntimeOutcomeService.MarkSchedulerCancellationIdleIfQueued` | src/facebook_monitor/application/target_runtime_outcomes.py:72-83 | Releases a queued row and no other |
| `RuntimeOutcomes.TargetRuntimeOutcomeService.GuardedMarkSchedulerCancellationIdle` | src/facebook_monitor/application/target_runtime_outcomes.py:85-103 | Releases a running row for its owner only |
| `RuntimeOutcomes.TargetRuntimeOutcomeService.DecideScanSkip` | src/facebook_monitor/application/target_runtime_outcomes.py:105-126 | The skip streak is one more for the same trimmed reason and 1 for another; it escalates exactly from the given limit on, also for limits below one |
| `RuntimeOutcomes.TargetRuntimeOutcomeService.ApplyScanSkipDecision` | src/facebook_monitor/application/target_runtime_outcomes.py:128-139 | The skip write is the protocol's step: the failure streak is untouched |
| `RuntimeOutcomes.TargetRuntimeOutcomeService.GuardedApplyScanSkipDecision` | src/facebook_monitor/application/target_runtime_outcomes.py:150-169 | The same, for the row's owner only |
| `RuntimeOutcomes.TargetRuntimeOutcomeService.DecideScanFailure` | src/facebook_monitor/application/target_runtime_outcomes.py:282-298 | Decides on the stored streak and changes nothing but a missing row |
| `RuntimeOutcomes.TargetRuntimeOutcomeService.ApplyScanFailureDecision` | src/facebook_monitor/application/target_runtime_outcomes.py:300-317 | The failure write is the protocol's step |
| `RuntimeOutcomes.TargetRuntimeOutcomeService.GuardedApplyScanFailureDecision` | src/facebook_monitor/application/target_runtime_outcomes.py:329-354 | The same, for the row's owner only and sparing newer requests |
| `RuntimeLifecycle.TargetRuntimeLifecycleService.ResetTargetDesiredState` | src/facebook_monitor/application/target_runtime_lifecycle.py:25-40 | Stop and start replace the row by a fresh one |
| `RuntimeLifecycle.TargetRuntimeLifecycleService.RestartTargetRuntime` | src/facebook_monitor/application/target_runtime_lifecycle.py:42-70 | Restart resets everything but guard count and last reload, and asks for a scan |
| `RuntimeLifecycle.TargetRuntimeLifecycleService.ForceRequestTargetRetryAfterRuntimeRestart` | src/facebook_monitor/application/target_runtime_lifecycle.py:72-82 | The restart retry is the protocol's step |
| `RuntimeLifecycle.TargetRuntimeLifecycleService.RecordGuardedTargetRetryAfterSqliteLock` | src/facebook_monitor/application/target_runtime_lifecycle.py:84-103 | Commits only for an active target and the row's owner |
| `RuntimeLifecycle.TargetRuntimeLifecycleService.RecordNonRunningTargetRetryAfterSqliteLock` | src/facebook_monitor/application/target_runtime_lifecycle.py:105-115 | Commits only for an active target whose row is not running |
| `RuntimeRequests.TargetRuntimeRequestService.SetTargetDisplayNextDueAt` | src/facebook_monitor/application/target_runtime_requests.py:21-37 | Touches only the displayed due time, and nothing when it is already so or the target is gone |
| `RuntimeRequests.TargetRuntimeRequestService.RequestTargetScan` | src/facebook_monitor/application/target_runtime_requests.py:39-51 | The protocol's request step, whatever the row's status (what it records: ScanRequests.RequestIsRecorded) |
| `RuntimeRequests.TargetRuntimeRequestService.ClearTargetScanRequest` | src/facebook_monitor/application/target_runtime_requests.py:53-65 | Clears unconditionally |
| `RuntimeRequests.TargetRuntimeRequestService.ClearTargetScanRequestIfNotNewer` | src/facebook_monitor/application/target_runtime_requests.py:67-85 | Clears only a request not newer than the consumed time; without one it clears unconditionally |
| `RuntimeRecovery.TargetRuntimeRecoveryService.RecoverStaleRunningTargets` | src/facebook_monitor/application/target_runtime_recovery.py:51-115 | The loop over candidates ends in exactly the sweep step, and reports exactly the rows it recovered, each with its previous owner, heartbeat and decision; a row is recovered if and only if it is running with a recorded start and its last heartbeat, or update time without one, is older than the window of at least one second |
| `RuntimeRecovery.TargetRuntimeRecoveryService.RecoverStaleQueuedTargets` | src/facebook_monitor/application/target_runtime_recovery.py:117-147 | The same for active queued rows and their enqueue time |
| `MonitoringCommands.TargetMonitoringCommands.UpdateTargetStatus` | src/facebook_monitor/application/target_monitoring_commands.py:92-114 | Switches and row change together, as one step |
| `MonitoringCommands.TargetMonitoringCommands.RestartTargetMonitoring` | src/facebook_monitor/application/target_monitoring_commands.py:116-134 | The target is enabled, unpaused and its row restarted in one step |
| `MonitoringCommands.TargetMonitoringCommands.PauseTargetMonitoring` | src/facebook_monitor/application/target_monitoring_commands.py:172-181 | Pausing is the status step enabled-and-paused |
| `MonitoringCommands.TargetMonitoringCommands.PauseAllTargetMonitoring` | src/facebook_monitor/application/target_monitoring_commands.py:194-212 | The loop ends in exactly the pause-all step, in whatever order targets are visited, and counts the targets that were active |
| `MonitoringCommands.TargetRegistryService.FindByKindScope` | src/facebook_monitor/persistence/repositories/targets.py:94-110 | Finds the earliest target of a kind and scope, and none only when there is none |
| `MonitoringCommands.TargetRegistryService.UpsertTarget` | src/facebook_monitor/application/target_registry_service.py:156-201 | Keeps the switches of a known target, starts a new one paused, and leaves a runtime row either way |
| `MonitoringCommands.TargetRegistryService.DeleteTarget` | src/facebook_monitor/application/target_registry_service.py:59-64 | Target and runtime row go together; an unknown id is refused and changes nothing |
| `ScanFailurePolicy.ReplayAgrees` | src/facebook_monitor/core/scan_failure_policy.py:131-216 | Replaying a stored failure count gives the live decision's terminal flag if and only if it is not the case that the reason is scheduler_stopping, the source is not a scheduler cancel, and the previous streak already has two scheduler_stopping failures; for every replay source |
| `ScanFailurePolicy.TerminalMeans` | src/facebook_monitor/core/scan_failure_policy.py:131-195 | When a decision counts toward the streak, and when it is terminal, in terms of reason, source and previous streak |
| `ScanFailurePolicy.CountedDecision` | src/facebook_monitor/core/scan_failure_policy.py:169-195 | A counted decision extends the streak by one and is terminal exactly from its reason's limit on |
| `ScanFailurePolicy.DecisionIsAsNamed` | src/facebook_monitor/core/scan_failure_policy.py:144-167 | By the reasons' names: stopping on purpose leads to idle, an unmendable reason to error at once, both without streak, limit, delay or recovery |
| `ScanFailurePolicy.CountedIsAsNamed` | src/facebook_monitor/core/scan_failure_policy.py:169-251 | Any other failure is retried below the third in a row, at once, or after 30 seconds for unavailable content, and ends in error from the third on; the recovery restarts the page, or the runtime for a runtime failure |
| `ScanFailurePolicy.PageIsDiscarded` | src/facebook_monitor/core/scan_failure_policy.py:141-143 | The page is discarded for browser-side sources, for the page reasons, and whenever the recovery is to restart the page |
| `KeywordText.NormalizeForMatchIsOnePass` | src/facebook_monitor/core/keyword_rules.py:76-87 | Trim-collapse, NFKC, trim-collapse and lower-case together equal one left-to-right pass over the folded characters, for per-character foldings |
| `KeywordText.NormalizeForMatchIsTidy` | src/facebook_monitor/core/keyword_rules.py:83-87 | Normalised text holds single plain spaces only, none at the ends, also after folding |
| `KeywordText.NormalizeTextStable` | src/facebook_monitor/core/keyword_rules.py:76-80 | normalize_text is idempotent |
| `KeywordText.NormalizeTextIsWords` | src/facebook_monitor/core/keyword_rules.py:76-80 | The result holds no zero-width character, only single plain spaces, none at the ends |
| `KeywordText.NormalizeTextJoinsWords` | src/facebook_monitor/core/keyword_rules.py:76-80 | normalize_text is the words of the text without zero-width characters, joined by single spaces |
| `Ranges.MergeRanges` | src/facebook_monitor/core/keyword_rules.py:396-408 | The result is sorted, non-empty and strictly separated ranges, and covers exactly the positions of the input |
| `Ranges.CanonicalIsUnique` | src/facebook_monitor/core/keyword_highlight.py:103-115 | Canonical lists with the same cover are equal, so any two inputs with one cover merge to one list and merging is idempotent |
| `KeywordRules.ParseKeywordInput` | src/facebook_monitor/core/keyword_rules.py:105-113 | The loop over semicolon pieces gives the parse function the laws below are about |
| `KeywordRules.ParseKeywordValues` | src/facebook_monitor/core/keyword_rules.py:116-122 | The rules of all values in order |
| `KeywordTerms.RuleIsItsWords` | src/facebook_monitor/core/keyword_rules.py:90-102 | A text makes a rule if and only if one of its words folds to something; the rule shows the words joined by single spaces, and its terms are the words' non-empty foldings in order |
| `KeywordTerms.RuleAsksForAllWords` | src/facebook_monitor/core/keyword_rules.py:143-146 | A rule matches a text if and only if every word of the rule text, folded, occurs in it |
| `KeywordTerms.RuleOfWords` | src/facebook_monitor/core/keyword_rules.py:90-102 | The rule printed from given words has exactly their foldings as terms and matches if and only if all of them occur |
| `KeywordTerms.AlternativesAreSeparate` | src/facebook_monitor/core/keyword_rules.py:105-122 | The pieces between semicolons are parsed one by one, in order; a piece gives its rule, or nothing when no word of it folds to something |
| `KeywordTerms.ValuesMatch` | src/facebook_monitor/core/keyword_rules.py:115-122 | A keyword list matches a text if and only if all words of one of its alternatives occur in it |
| `KeywordRules.ParsedAreParserMade` | src/facebook_monitor/core/keyword_rules.py:90-122 | Every parsed rule's raw text parses back to that very rule and holds no semicolon |
| `KeywordRules.PrintParse` | src/facebook_monitor/core/keyword_rules.py:125-140 | Splitting the printed text of parsed rules gives their de-duplicated raw texts in order, and parsing it gives back exactly the same rules |
| `KeywordRules.IterMatches` | src/facebook_monitor/core/keyword_rules.py:354-381 | The scan reports exactly the pairs of an end position and a word ending there |
| `KeywordRules.FoundTerms` | src/facebook_monitor/core/keyword_rules.py:165-178 | The found set is exactly the words that occur in the text |
| `KeywordRules.FoundIsAccepted` | src/facebook_monitor/core/keyword_rules.py:143-178 | Looking terms up in the shared scan's result accepts the same rules, in the same order, as searching the text rule by rule |
| `KeywordRules.ParserMadeAccepts` | src/facebook_monitor/core/keyword_rules.py:143-163 | For a parsed rule the scanner's decision is that of matches_keyword_rule |
| `KeywordRules.MatchRules` | src/facebook_monitor/core/keyword_rules.py:155-178 | The reported rules are the de-duplicated raw texts of the rules the simple search accepts; matched says whether there are any |
| `KeywordRules.MatchGroups` | src/facebook_monitor/core/keyword_rules.py:181-248 | Accepts exactly when there is a group and every group has an accepted rule; per-group results, matches and shown rules are those of the simple search |
| `KeywordExclude.PhraseRanges` | src/facebook_monitor/core/keyword_rules.py:251-264 | The ranges are canonical and cover exactly the positions inside some phrase occurrence |
| `KeywordExclude.MaskRanges` | src/facebook_monitor/core/keyword_rules.py:384-393 | Covered positions become spaces, all others keep their character, the length stays |
| `KeywordExclude.MaskIgnored` | src/facebook_monitor/core/keyword_rules.py:325-334 | The masked text is the text with every ignored position blanked |
| `KeywordExclude.MaskingIsExactWithoutSpaces` | src/facebook_monitor/core/keyword_rules.py:288-305 | Without a space in it, a term occurs in the masked text just when it has an occurrence disjoint from every phrase occurrence, for all texts and phrases; over the normalised texts and the phrases a matcher can hold this is so if and only if it is not the case that the term holds a space while some word character is missing from it |
| `KeywordExclude.SpacedTermLeaks` | src/facebook_monitor/core/keyword_rules.py:384-393 | The failing family: for any term with a space and any character outside it, ignoring that character makes the term fire on a text in which it does not occur; the text is a normalised one when the term is |
| `KeywordSpaces.IgnorePhrasesAreProper` | src/facebook_monitor/core/keyword_rules.py:254-286 | The ignore phrases of a compiled matcher are never empty and hold single plain spaces only, none at the ends |
| `KeywordSpaces.ParsedTermsAreTidy` | src/facebook_monitor/core/keyword_rules.py:90-102 | The same for the terms of a parsed rule; a space inside one is not excluded |
| `KeywordSpaces.IgnoringMoreIsSafeWithoutSpaces` | src/facebook_monitor/core/keyword_rules.py:288-305 | For a rule that leaves two word characters unused: adding ignore phrases never makes it fire, over all normalised texts and all phrases a matcher can hold, if and only if none of its terms holds a space |
| `KeywordSpaces.SpacedRuleIsParsed` | src/facebook_monitor/core/keyword_rules.py:83-102 | The parser does make a spaced term: under a folding that sends U+00B4 to a space and U+0301, the rule text a followed by U+00B4 has the one term a, space, U+0301 |
| `KeywordSpaces.IgnoringMoreCanExclude` | src/facebook_monitor/core/keyword_rules.py:267-305 | A configuration with that exclude rule, for which adding an ignore value turns an eligible text ineligible |
| `KeywordSpaces.ConfiguredIsReal` | src/facebook_monitor/core/keyword_rules.py:83-122 | In that configuration the folding is regular, the text is its own normal form and the exclude rule is what the parser makes of the configured value |
| `KeywordExclude.ExcludeRuleFires` | src/facebook_monitor/core/keyword_rules.py:97-99 | An exclude rule without spaced terms fires just when each of its terms occurs away from all ignore phrases |
| `KeywordExclude.EligibleMeans` | src/facebook_monitor/core/keyword_rules.py:267-305 | A text is eligible just when there is an include group, every group has a matching rule, and every exclude rule has a term all of whose occurrences meet an ignore phrase |
| `KeywordConfigs.EligibleByConfig` | src/facebook_monitor/core/keyword_rules.py:267-305 | From the settings themselves: a normalised text is eligible if and only if every filled group slot, or the flat keyword list when no slot is filled, has an alternative all of whose words occur in it, and every exclude alternative has a word that occurs nowhere away from the ignore phrases |
| `KeywordConfigs.EffectiveAreFilledSlots` | src/facebook_monitor/core/keyword_groups.py:114-124 | A config with a group that has keywords is matched against exactly the filled slots, in slot order |
| `KeywordConfigs.EffectiveIsFlat` | src/facebook_monitor/core/keyword_groups.py:114-124 | Any other config is matched against its flat keywords as one group, or against nothing |
| `KeywordConfigs.IgnorePhrasesHold` | src/facebook_monitor/core/keyword_rules.py:283-286 | The ignore phrases are exactly the normalised alternatives of the ignore values |
| `KeywordConfigs.ResultsNameTheirGroups` | src/facebook_monitor/core/keyword_rules.py:218-233 | Each group result carries its group's id and label, says whether the group's keywords match, and lists exactly its matching rules |
| `KeywordConfigs.MatchesNameTheirGroups` | src/facebook_monitor/core/keyword_rules.py:234-241 | The reported matches are exactly the matching rules of the groups, each with its group's id and label |
| `KeywordExclude.IgnoringMoreKeepsEligible` | src/facebook_monitor/core/keyword_rules.py:267-305 | Adding ignore phrases to the configuration never turns an eligible text ineligible |
| `KeywordExclude.Evaluate` | src/facebook_monitor/core/keyword_rules.py:288-305 | Eligibility, shown include and exclude rules, group results and matches are those of the simple definitions on the normalised text |
| `KeywordExclude.GroupedImpliesFlat` | src/facebook_monitor/core/keyword_groups.py:114-139 | For a configuration whose keyword fields are in step, a text accepted by the groups is accepted by the flat keywords |
| `KeywordHighlight.NormalizeWithOriginalMap` | src/facebook_monitor/core/keyword_highlight.py:77-100 | The loop yields the words of the folded text and the source index of every character of them |
| `KeywordHighlight.SeenIsMatched` | src/facebook_monitor/core/keyword_highlight.py:77-100 | The highlighter's own normalised text equals normalize_for_match |
| `KeywordHighlight.OriginsSorted` | src/facebook_monitor/core/keyword_highlight.py:77-100 | The index map is non-decreasing and stays inside the text |
| `KeywordHighlight.OriginHolds` | src/facebook_monitor/core/keyword_highlight.py:77-100 | Every normalised character is a folded character of its source, which is not a zero-width one |
| `HighlightSources.OriginsAreExact` | src/facebook_monitor/core/keyword_highlight.py:77-100 | White space aside, the normalised characters and their source positions are the foldings of the text's characters in order, each at its character's position |
| `KeywordHighlight.TermRanges` | src/facebook_monitor/core/keyword_highlight.py:43-54 | The ranges cover exactly the source spans of all occurrences of the term, overlapping ones included |
| `KeywordHighlight.CutSegments` | src/facebook_monitor/core/keyword_highlight.py:55-68 | Cutting along canonical ranges gives a partition with alternating, non-empty segments |
| `KeywordHighlight.BuildHighlightSegments` | src/facebook_monitor/core/keyword_highlight.py:34-68 | The segment texts concatenate to the input, none is empty, highlighted and plain segments alternate, and a character is highlighted if and only if it lies in the source span of some term occurrence |
| `KeywordAgreement.SegmentsAreUnique` | src/facebook_monitor/core/keyword_highlight.py:34-68 | Only one segment list meets that contract |
| `KeywordAgreement.ParseFormatted` | src/facebook_monitor/core/keyword_rules.py:105-140 | Parsing printed raw texts gives exactly the rules they stand for |
| `KeywordAgreement.ShownRulesAreMatches` | src/facebook_monitor/core/keyword_rules.py:210-248 | The rule text shown for an evaluated post parses back to exactly the group rules that match it |
| `KeywordAgreement.MatchesAreHighlighted` | src/facebook_monitor/core/keyword_highlight.py:34-54 | Highlighting by the rules of the matching groups lights up an occurrence of every term of every group rule the matcher accepts, and every lit character lies in such an occurrence |
| `KeywordAgreement.EvaluationIsHighlighted` | src/facebook_monitor/webapp/preview_models.py:162-176 | From the contracts of evaluation and highlighter: in the segments built from an evaluation's own include rule, a character is highlighted if and only if the groups accept the text and the character lies in the source span of a term of a matching group rule |
| `KeywordAgreement.EligibleIsHighlighted` | src/facebook_monitor/webapp/preview_models.py:162-176 | In an eligible text every include group has a matching rule, and those segments highlight an occurrence of each of its terms over its whole source span |
| `KeywordGroups.NormalizedIsStable` | src/facebook_monitor/core/keyword_groups.py:68-111 | Normalising groups is idempotent, with and without empty slots |
| `KeywordGroups.EntriesAreSlots` | src/facebook_monitor/core/keyword_groups.py:68-111 | The normalised groups have distinct ascending ids within the fixed slots, trimmed labels, and trimmed, de-duplicated keywords |
| `KeywordConfigs.LastNamedWins` | src/facebook_monitor/core/keyword_groups.py:77-82 | A slot some group names is filled by the last group that names it, with its trimmed label or the default one and its normalised keywords |
| `KeywordConfigs.OverflowFillsOpenSlots` | src/facebook_monitor/core/keyword_groups.py:84-92 | The k-th slot no group names is filled by the k-th group that names no slot, if there is one |
| `KeywordGroups.FlattenIgnoresNormalizing` | src/facebook_monitor/core/keyword_groups.py:127-139 | Normalising first leaves the flat projection unchanged |
| `KeywordGroups.FlattenHolds` | src/facebook_monitor/core/keyword_groups.py:127-139 | The flat projection holds exactly the keywords of the normalised groups |
| `KeywordGroups.NormalizeIncludeKeywordGroups` | src/facebook_monitor/core/keyword_groups.py:68-111 | The two-pass dictionary algorithm computes the slot-by-slot definition: the last group naming a slot, else the next overflow group |
| `KeywordGroups.NormalizeKeywordValues` | src/facebook_monitor/core/keyword_groups.py:158-166 | The loop keeps trimmed non-blank keywords, first occurrences only |
| `KeywordGroups.KeywordGroupSlots` | src/facebook_monitor/core/keyword_groups.py:25-44 | The i-th keyword list fills slot i; missing lists give empty slots |
| `ConfigMerge.BuildTargetConfigFromPatch` | src/facebook_monitor/application/target_config_merge.py:54-62 | The new config's keyword fields are in step, whatever the patch provides |
| `ConfigMerge.MergeTargetConfigPatch` | src/facebook_monitor/application/target_config_merge.py:65-76 | Merging keeps the fields in step, brings them in step when the patch provides either, and otherwise keeps them |
| `ConfigMerge.NormalizeIncludeKeywordValues` | src/facebook_monitor/application/target_config_merge.py:79-102 | A group patch decides both fields, else an include patch does, else neither changes |
| `ConfigMerge.LegacyFlatten` | src/facebook_monitor/core/keyword_groups.py:47-65 | Flat keywords put into the first slot flatten back to themselves |
| `ConfigMerge.FlattenStable` | src/facebook_monitor/core/keyword_groups.py:127-139 | A flat projection is a fixed point of keyword normalisation |
| `CollectionLoop.RunCollectionLoop` | src/facebook_monitor/facebook/collection_runner.py:73-136 | The loop with its try/finally computes the recursive definition of a run, raises included |
| `CollectionReport.RunTells` | src/facebook_monitor/facebook/collection_runner.py:73-235 | Over every run: each reported round carries the numbers its callbacks gave; it scrolled if and only if the stop hook said no, rounds and items were still wanted and the scroll hook said yes; every round but the last had rounds left, items wanted, no scroll that stood still and fewer than three stagnant rounds; a run without a raise returns the list of its last merge, and its last round had a reason to end |
| `CollectionReport.FailsOnlyOnRaise` | src/facebook_monitor/facebook/collection_runner.py:91-136 | A run in which no callback raises does not fail |
| `CollectionLoop.RunIsBounded` | src/facebook_monitor/facebook/collection_runner.py:91-136 | A run has at most max(rounds, 0) + 1 rounds and, when the merge reports growth, at most three per wanted item; the collect and wait calls alternate, with exactly one wait between rounds and none after the last |
| `CollectionLoop.RestoresOnce` | src/facebook_monitor/facebook/collection_runner.py:91-136 | A captured snapshot is restored exactly once, as the last call, whether or not a callback raised; without a captured snapshot nothing is restored |
| `CollectionLoop.BoundsAreReached` | src/facebook_monitor/facebook/collection_runner.py:210-235 | Both bounds are sharp: a truthful merge can take three rounds per wanted item, and a merge that reports growth it does not make runs all rounds |
| `CollectionLoop.RoundKeepsPace` | src/facebook_monitor/facebook/collection_runner.py:210-225 | A round that lets the loop go on grew the list or lengthened a streak of fewer than three |
| `Versions.NextSmokeUpdateVersion` | scripts/admin/smoke_frozen_updater.py:296-306 | For every parseable version the result parses to a stable version with a strictly greater sort key, whatever the release length, stable or candidate; an unparseable one is refused |
| `Versions.NextIsLater` | src/facebook_monitor/versioning.py:21-25 | The padded, bumped release sorts strictly after the current version |
| `Versions.NextIsLeast` | scripts/admin/smoke_frozen_updater.py:296-306 | Among releases with as many components none lies between the padded current version and the next one |
| `Versions.MatchIsPattern` | src/facebook_monitor/versioning.py:37-51 | The parser accepts exactly the texts of the pattern and reads their numbers |
| `Versions.ParseIsPattern` | src/facebook_monitor/versioning.py:28-51 | From the raw text: the parser accepts exactly an optional v or V, numerals joined by dots and an optional rc or -rc with a numeral, surrounding white space aside, and reads the version spelled |
| `Versions.CandidatesPrecedeTheRelease` | src/facebook_monitor/versioning.py:21-25 | Versions are ordered by release, then candidates by number, then the stable version |
| `Versions.FirstDifferenceDecides` | src/facebook_monitor/versioning.py:21-25 | Between releases the first component that differs decides, and a release that only lacks components comes first |
| `Versions.ParsePrintRelease` | scripts/admin/smoke_frozen_updater.py:296-306 | Printing a release and parsing the text gives the stable version back |
| `Versions.ParsePrintNat` | src/facebook_monitor/versioning.py:43-44 | Reading a printed number gives the number back |
| `Versions.PrintParseNat` | src/facebook_monitor/versioning.py:43-44 | Printing a read numeral gives it back when it has no superfluous leading zero |
| `Versions.KeyOrder` | src/facebook_monitor/versioning.py:21-25 | Sort keys are strictly and totally ordered |
| `SidebarLayout.PlacementsAccepted` | src/facebook_monitor/application/sidebar_layout_service.py:145-175 | A placement payload is accepted if and only if its sections are non-blank, distinct after trimming and of known groups, and its trimmed ids list every known target exactly once; the answer is the number of targets |
| `SidebarLayout.GroupOrderAccepted` | src/facebook_monitor/application/sidebar_layout_service.py:135-143 | A group order is accepted if and only if, trimmed, it lists every known group exactly once |
| `SidebarLayout.ErrorsAreFirst` | src/facebook_monitor/application/sidebar_layout_service.py:145-175 | A refused placement payload is answered with the first check that fails, each in terms of the payload |
| `SidebarLayout.OrderErrorsAreFirst` | src/facebook_monitor/application/sidebar_layout_service.py:135-143 | The same for a refused group order |
| `SidebarLayout.AcceptedIsPartition` | src/facebook_monitor/application/sidebar_layout_service.py:145-175 | An accepted payload is a true partition: sections differ, and every known target stands at exactly one place of exactly one section, and nothing else stands anywhere |
| `SidebarLayout.OrderIsPermutation` | src/facebook_monitor/persistence/repositories/sidebar_layout.py:112-123 | An accepted order numbers the groups from 0 without gaps or repetition |
| `SidebarLayout.PlaceSectionsHolds` | src/facebook_monitor/persistence/repositories/sidebar_layout.py:190-204 | Writing sections without repeated ids puts every id where its section says and leaves the others alone |
| `SidebarLayout.ValidatePlacements` | src/facebook_monitor/application/sidebar_layout_service.py:145-175 | The checks in the source's order give the verdict the laws above are about |
| `SidebarLayout.SidebarLayoutService.SaveLayout` | src/facebook_monitor/application/sidebar_layout_service.py:101-118 | Both tables are written as the payload asks when order and placements are valid, and neither otherwise; the error is the first one found |
| `SidebarLayout.SidebarLayoutService.SavePlacements` | src/facebook_monitor/application/sidebar_layout_service.py:120-133 | An accepted payload puts every target where it says; a refused one changes nothing |
| `SidebarLayout.SidebarLayoutService.SaveGroupOrder` | src/facebook_monitor/application/sidebar_layout_service.py:80-84 | An accepted order renumbers the groups; a refused one changes nothing |
| `SidebarLayout.SidebarLayoutService.SaveTargetOrder` | src/facebook_monitor/application/sidebar_layout_service.py:86-99 | Accepted exactly while nothing is grouped and the trimmed ids are the known targets, repeated or not; writes first occurrences in order |

## Left out

- SQLite itself: transactions, locking, retries on a locked database, column encoding and the JSON shape of stored
  values. Comparing stored ISO timestamps is taken to be comparing times.
- RuntimeRows: several clock readings within one call are one value, and message texts are structured values rather
  than the exact user-visible strings.
- RuntimeOutcomes.TargetRuntimeOutcomeService.ApplyScanFailureDecision: the plain error and retriable-failure writes
  (target_runtime_outcomes.py:171-280) are not separate members, because they have no production caller: the
  two facades only delegate to them, and their other callers are the repository's own tests. Their row effects are
  those of the failure decision.
- The force variants, target_runtime_service.py and services.py delegate to modelled methods.
- FailureStreak.StreakSummarisesHistory: the unguarded failure write is taken to carry a decision on the row it
  writes, because both of its callers decide and write in one transaction (worker/scan_failure_finalize.py:232-292 and
  562-601); for guarded writes this is derived, not assumed.
- ScanRequests.NoLostRequest: unconditional clears, stops, unguarded terminal errors, recovery of a stopped target,
  clears past the last enqueue and deletions drop the request by design and are excluded by name.
- MonitoringCommands.TargetMonitoringCommands.PauseAllTargetMonitoring: the startup variant with its check that rows
  can be decoded, notification resets and target renaming are not modelled; targets are visited in any order.
- RuntimeRecovery.TargetRuntimeRecoveryService.RecoverStaleRunningTargets: candidates are visited in any order rather
  than by update time; the result does not depend on it.
- MonitoringCommands.TargetRegistryService.UpsertTarget: the posts and comments upserts are one method with the scope
  id as a parameter, names, URLs and metadata are one opaque value, the new id is a parameter, and the config row the
  upsert also saves is not stored.
- KeywordText.NormalizeForMatchIsOnePass: NFKC composes across characters in some texts; the law is for texts on which
  folding acts character by character.
- KeywordSpaces.IgnoringMoreIsSafeWithoutSpaces: two word characters outside the rule's terms are taken as given, one
  to stand in for the space and one to separate terms; only a rule that uses all but one of them has none.
- KeywordAgreement.EvaluationIsHighlighted: the page highlights a stored preview, which can be shorter than the text
  that was evaluated; the law is about highlighting the evaluated text itself.
- KeywordRules.IterMatches: a plain verified scan stands for the Aho-Corasick automaton; it reports the same pairs, and
  nothing modelled depends on their order.
- KeywordGroups.KeywordGroupSlots: only the default number of slots, which is the only one the source uses for groups.
- ConfigMerge.MergeTargetConfigPatch: of the fields without keywords only the clamped scan limit is kept; the others
  are copied unchanged.
- CollectionLoop.RunCollectionLoop: round metadata, extra diagnostics and scroll metrics are not carried in the
  context; callbacks may still depend on them through the round number. Awaiting is not modelled.
- Versions.MatchIsPattern: only ASCII digits are digits; Python also accepts other decimal digits and limits the length
  of very long numerals.
- SidebarLayout.SidebarLayoutService.SaveLayout: update timestamps, templates and creating, renaming, collapsing or
  deleting groups are not modelled.
- Refresh intervals, input limits, target naming, permalinks and URLs, notification sending, browser automation, the web
  UI, release packaging and support bundles.
