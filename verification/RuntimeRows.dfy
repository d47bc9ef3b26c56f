/** One row of target_runtime_state, the pure state builders of target_runtime_transitions.py, and
    the conditional UPDATE statements of the runtime repository as partial functions on the row.

    A time is a number of microseconds on one clock. Message texts are kept as structured values. */
module RuntimeRows {
  import opened Options
  import opened ScanFailurePolicy

  type Time = int
  const SECOND: Time := 1_000_000

  datatype DesiredState = Active | Stopped
  datatype RuntimeStatus = Idle | Queued | Running | InError

  /** What last_error and last_skip_reason say. */
  datatype Message =
    | NoMessage
    | Text(text: string)
    | RetryExhausted(reason: string, streak: int, limit: int)
    | HeartbeatExpired(reason: string, seconds: int)
    | SkipNote(reason: string, streak: int, limit: int)
    | RetryNote(action: string, streak: int, limit: int, delaySeconds: int)
    | QueueWaitExpired(seconds: int)
    | InactiveOwnerExpired(seconds: int)
    | AlreadyRunning(workerId: string)
    | NotActive(desired: DesiredState)
    | ClaimConflict

  datatype RuntimeRow = RuntimeRow(
    desired: DesiredState,
    status: RuntimeStatus,
    scanRequestedAt: Option<Time>,
    lastEnqueuedAt: Option<Time>,
    lastStartedAt: Option<Time>,
    lastFinishedAt: Option<Time>,
    lastHeartbeatAt: Option<Time>,
    lastError: Message,
    lastSkipReason: Message,
    enqueueReason: string,
    activeWorkerId: string,
    activePageId: string,
    lastPageReloadedAt: Option<Time>,
    scanGuardCount: int,
    displayNextDueAt: Option<Time>,
    failureReason: string,
    failureCount: int,
    skipReason: string,
    skipCount: int,
    updatedAt: Time
  )

  /** A running owner: the worker, the start time of its claim, and optionally its page. */
  datatype Owner = Owner(workerId: string, startedAt: Time, pageId: string)

  datatype SkipDecision = SkipDecision(reason: string, streak: int, limit: int) {
    predicate Escalate() {
      streak >= limit
    }
  }

  /** TargetRuntimeState(target_id=..., desired_state=...) with every other field at its default. */
  function FreshRow(desired: DesiredState, now: Time): RuntimeRow {
    RuntimeRow(desired, Idle, None, None, None, None, None, NoMessage, NoMessage, "", "", "", None, 0, None,
               "", 0, "", 0, now)
  }

  // ---- target_runtime_transitions.py ----

  function ScanRequestAfterCurrentAttempt(row: RuntimeRow): Option<Time> {
    if row.scanRequestedAt.None? then None
    else if row.lastEnqueuedAt.None? && row.lastStartedAt.None? then row.scanRequestedAt
    else if row.lastEnqueuedAt.Some? && row.scanRequestedAt.value > row.lastEnqueuedAt.value then row.scanRequestedAt
    else if row.lastStartedAt.Some? && row.scanRequestedAt.value > row.lastStartedAt.value then row.scanRequestedAt
    else None
  }

  /** Back to idle with the owner cleared; every other field is kept. */
  function Released(row: RuntimeRow, now: Time): RuntimeRow {
    row.(status := Idle, enqueueReason := "", activeWorkerId := "", activePageId := "", updatedAt := now)
  }

  function RetryRequestedState(row: RuntimeRow, now: Time): RuntimeRow {
    Released(row, now).(scanRequestedAt := Some(now))
  }

  function IdleState(row: RuntimeRow, now: Time): RuntimeRow {
    Released(row, now).(
    scanRequestedAt := ScanRequestAfterCurrentAttempt(row),
    lastFinishedAt := Some(now),
    lastHeartbeatAt := Some(now),
    lastError := NoMessage,
    lastSkipReason := NoMessage,
    failureReason := "",
    failureCount := 0,
    skipReason := "",
    skipCount := 0)
  }

  function ScanSkippedState(row: RuntimeRow, decision: SkipDecision, now: Time): RuntimeRow {
    Released(row, now).(
    scanRequestedAt := ScanRequestAfterCurrentAttempt(row),
    lastFinishedAt := Some(now),
    lastHeartbeatAt := Some(now),
    lastError := NoMessage,
    lastSkipReason := SkipNote(decision.reason, decision.streak, decision.limit),
    skipReason := decision.reason,
    skipCount := decision.streak)
  }

  function RetriableFailureState(row: RuntimeRow, decision: Decision, now: Time): RuntimeRow {
    Released(row, now).(
    scanRequestedAt := if decision.autoRestart then Some(now) else ScanRequestAfterCurrentAttempt(row),
    lastFinishedAt := Some(now),
    lastHeartbeatAt := Some(now),
    lastError := NoMessage,
    lastSkipReason :=
      if decision.recoveryAction == "" then NoMessage
      else RetryNote(decision.recoveryAction, decision.retryStreak, decision.retryLimit, decision.retryDelaySeconds),
    failureReason := decision.reason,
    failureCount := decision.retryStreak,
    skipReason := "",
    skipCount := 0)
  }

  function ErrorState(row: RuntimeRow, error: Message, reason: string, count: int, now: Time): RuntimeRow {
    Released(row, now).(
    status := InError,
    scanRequestedAt := None,
    lastFinishedAt := Some(now),
    lastHeartbeatAt := Some(now),
    lastError := error,
    lastSkipReason := NoMessage,
    failureReason := reason,
    failureCount := if count > 0 then count else 0,
    skipReason := "",
    skipCount := 0)
  }

  function FailureDecisionState(row: RuntimeRow, decision: Decision, error: Message, now: Time): RuntimeRow {
    if decision.targetAction.ToIdle? then
      if decision.countsTowardStreak then RetriableFailureState(row, decision, now) else IdleState(row, now)
    else if decision.countsTowardStreak then
      ErrorState(row, RetryExhausted(decision.reason, decision.retryStreak, decision.retryLimit),
                 decision.reason, decision.retryStreak, now)
    else ErrorState(row, error, "", 0, now)
  }

  function StaleQueuedRecoveredState(row: RuntimeRow, staleAfter: Time, now: Time): RuntimeRow {
    Released(row, now).(lastError := NoMessage, lastSkipReason := QueueWaitExpired(staleAfter / SECOND))
  }

  function StaleRunningInactiveRecoveredState(row: RuntimeRow, staleAfter: Time, now: Time): RuntimeRow {
    Released(row, now).(
    scanRequestedAt := None,
    lastError := NoMessage,
    lastSkipReason := InactiveOwnerExpired(staleAfter / SECOND))
  }

  /** restart_target_runtime: everything but the guard count and the last reload is reset, and a scan is asked for. */
  function RestartedState(row: RuntimeRow, now: Time): RuntimeRow {
    FreshRow(Active, now).(
    scanRequestedAt := Some(now),
    lastPageReloadedAt := row.lastPageReloadedAt,
    scanGuardCount := row.scanGuardCount)
  }

  function DecideFailureOn(row: RuntimeRow, reason: string, source: Source): Decision {
    Decide(reason, source, row.failureReason, row.failureCount)
  }

  // ---- conditional UPDATEs: None when the WHERE clause does not match ----

  predicate OwnedBy(row: RuntimeRow, owner: Owner) {
    && row.status == Running
    && row.activeWorkerId == owner.workerId
    && row.lastStartedAt == Some(owner.startedAt)
    && (owner.pageId == "" || row.activePageId == owner.pageId)
  }

  function TryMarkRunning(row: RuntimeRow, workerId: string, pageId: string, startedAt: Time): Option<RuntimeRow> {
    if row.desired == Active && row.status in {Idle, Queued}
    then Some(MarkedRunning(row, workerId, pageId, startedAt))
    else None
  }

  function MarkedRunning(row: RuntimeRow, workerId: string, pageId: string, startedAt: Time): RuntimeRow {
    row.(status := Running, lastStartedAt := Some(startedAt), lastHeartbeatAt := Some(startedAt),
    lastError := NoMessage, lastSkipReason := NoMessage,
    activeWorkerId := workerId, activePageId := pageId, updatedAt := startedAt)
  }

  function MarkQueuedIfIdle(row: RuntimeRow, reason: string, enqueuedAt: Time): Option<RuntimeRow> {
    if row.desired == Active && row.status == Idle
    then Some(row.(status := Queued, lastEnqueuedAt := Some(enqueuedAt), lastError := NoMessage,
              lastSkipReason := NoMessage, enqueueReason := reason,
              activeWorkerId := "", activePageId := "", updatedAt := enqueuedAt))
    else None
  }

  function GuardSkipRecorded(row: RuntimeRow, reason: Message, skippedAt: Time): RuntimeRow {
    row.(lastSkipReason := reason, scanGuardCount := row.scanGuardCount + 1, updatedAt := skippedAt)
  }

  function HeartbeatRecorded(row: RuntimeRow, pageId: string, heartbeatAt: Time): RuntimeRow {
    row.(activePageId := if pageId == "" then row.activePageId else pageId,
    lastHeartbeatAt := Some(heartbeatAt), updatedAt := heartbeatAt)
  }

  function HeartbeatIfRunning(row: RuntimeRow, workerId: string, pageId: string, at: Time): Option<RuntimeRow> {
    if row.status == Running && (workerId == "" || row.activeWorkerId == workerId)
    then Some(HeartbeatRecorded(row, pageId, at)) else None
  }

  function HeartbeatIfOwner(row: RuntimeRow, owner: Owner, at: Time): Option<RuntimeRow> {
    if OwnedBy(row, owner) then Some(HeartbeatRecorded(row, owner.pageId, at)) else None
  }

  function PageReloadedIfOwner(row: RuntimeRow, owner: Owner, reloadedAt: Time, at: Time): Option<RuntimeRow> {
    if OwnedBy(row, owner)
    then Some(HeartbeatRecorded(row, owner.pageId, at).(lastPageReloadedAt := Some(reloadedAt)))
    else None
  }

  /** The CASE expression that spares a scan request newer than the owner's start. */
  function PreservedScanRequest(row: RuntimeRow, next: RuntimeRow, startedAt: Time): Option<Time> {
    if next.desired == Active && row.scanRequestedAt.Some? && row.scanRequestedAt.value > startedAt
    then row.scanRequestedAt else next.scanRequestedAt
  }

  function SaveIfRunningOwner(row: RuntimeRow, next: RuntimeRow, owner: Owner): Option<RuntimeRow> {
    if OwnedBy(row, owner)
    then Some(next.(scanRequestedAt := PreservedScanRequest(row, next, owner.startedAt)))
    else None
  }

  function SaveIfNotRunning(row: RuntimeRow, next: RuntimeRow): Option<RuntimeRow> {
    if row.status != Running then Some(next) else None
  }

  function CancelIfOwner(row: RuntimeRow, owner: Owner, at: Time): Option<RuntimeRow> {
    if OwnedBy(row, owner) then Some(Released(row, at)) else None
  }

  function CancelIfQueued(row: RuntimeRow, at: Time): Option<RuntimeRow> {
    if row.status == Queued then Some(Released(row, at)) else None
  }

  function DisplayDueSet(row: RuntimeRow, dueAt: Option<Time>, at: Time): RuntimeRow {
    row.(displayNextDueAt := dueAt, updatedAt := at)
  }

  function ScanRequestSet(row: RuntimeRow, requestedAt: Option<Time>, at: Time): RuntimeRow {
    row.(scanRequestedAt := requestedAt, updatedAt := at)
  }

  function ClearScanRequestIfNotNewer(row: RuntimeRow, consumedAt: Time, at: Time): Option<RuntimeRow> {
    if row.scanRequestedAt.None? || row.scanRequestedAt.value <= consumedAt
    then Some(ScanRequestSet(row, None, at)) else None
  }

  predicate RunningStale(row: RuntimeRow, staleBefore: Time) {
    row.status == Running && row.lastHeartbeatAt.GetOr(row.updatedAt) <= staleBefore
  }

  predicate QueuedStale(row: RuntimeRow, staleBefore: Time) {
    row.status == Queued && row.lastEnqueuedAt.GetOr(row.updatedAt) <= staleBefore
  }

  function SaveStaleRunningIfUnchanged(row: RuntimeRow, next: RuntimeRow, owner: Owner, staleBefore: Time)
    : Option<RuntimeRow>
  {
    if OwnedBy(row, owner) && row.desired == next.desired && RunningStale(row, staleBefore)
    then Some(next.(scanRequestedAt := PreservedScanRequest(row, next, owner.startedAt)))
    else None
  }

  function SaveStaleQueuedIfUnchanged(row: RuntimeRow, next: RuntimeRow, expectedEnqueuedAt: Option<Time>,
                                      expectedUpdatedAt: Time, staleBefore: Time)
    : Option<RuntimeRow>
  {
    if && row.desired == Active
       && QueuedStale(row, staleBefore)
       && row.lastEnqueuedAt == expectedEnqueuedAt
       && row.updatedAt == expectedUpdatedAt
    then Some(row.(status := next.status, lastError := next.lastError, lastSkipReason := next.lastSkipReason,
              enqueueReason := next.enqueueReason, activeWorkerId := next.activeWorkerId,
              activePageId := next.activePageId, updatedAt := next.updatedAt))
    else None
  }
}
