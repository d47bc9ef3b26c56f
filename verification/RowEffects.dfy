/** What each runtime call commits to, field by field: when it takes effect at all, and then, for every field of the
    row, exactly which calls write it and what they leave there. */
module RowEffects {
  import opened Options
  import opened RuntimeRows
  import opened RuntimeProtocol
  import opened ScanFailurePolicy

  // ---- when a call takes effect ----

  /** The row is running for this worker since this start, on this page if one is named. */
  predicate Owns(row: RuntimeRow, owner: Owner) {
    && row.status == Running
    && row.activeWorkerId == owner.workerId
    && row.lastStartedAt == Some(owner.startedAt)
    && owner.pageId in {"", row.activePageId}
  }

  /** The last sign of life of a running row, and of a queued one. */
  function LastSeen(row: RuntimeRow): Time {
    match row.lastHeartbeatAt
    case Some(at) => at
    case None => row.updatedAt
  }

  function QueuedSince(row: RuntimeRow): Time {
    match row.lastEnqueuedAt
    case Some(at) => at
    case None => row.updatedAt
  }

  /** The condition each call puts on the row. */
  predicate Commits(row: RuntimeRow, op: RowOp, now: Time) {
    match op
    case MarkQueued(_) => row.desired == Active && row.status == Idle
    case Claim(_, _) => row.desired == Active && (row.status == Idle || row.status == Queued)
    case GuardedPageReloaded(o, _) => Owns(row, o)
    case Heartbeat(w, _) => row.status == Running && w in {"", row.activeWorkerId}
    case GuardedHeartbeat(o) => Owns(row, o)
    case MarkIdleIfNotRunning => row.status != Running
    case GuardedIdle(o) => Owns(row, o)
    case CancelQueued => row.status == Queued
    case GuardedCancel(o) => Owns(row, o)
    case GuardedSkip(_, o) => Owns(row, o)
    case GuardedFailure(_, _, o) => Owns(row, o)
    case GuardedRetryAfterLock(o) => Owns(row, o)
    case RetryAfterLockIfNotRunning => row.status != Running
    case SetDisplayDue(due) => row.displayNextDueAt != due
    case ClearRequestIfNotNewer(c) => row.scanRequestedAt.Some? ==> row.scanRequestedAt.value <= c
    case RecoverStaleRunning(after) =>
      row.status == Running && row.lastStartedAt.Some? && LastSeen(row) <= now - after
    case RecoverStaleQueued(after) =>
      row.status == Queued && row.desired == Active && QueuedSince(row) <= now - after
    case _ => true
  }

  /** Main result: a call takes effect exactly under its condition on the row's fields. */
  lemma CommitsExactly(row: RuntimeRow, op: RowOp, now: Time)
    ensures Attempt(row, op, now).Some? <==> Commits(row, op, now)
  {
  }

  /** The note a refused claim leaves tells why it was refused. */
  predicate RefusalNoted(row: RuntimeRow, note: Message) {
    if row.status == Running then note == AlreadyRunning(row.activeWorkerId)
    else if row.desired == Stopped then note == NotActive(Stopped)
    else row.status == InError && note == ClaimConflict
  }

  /** Main result: a call whose condition fails changes nothing, except that a refused claim is counted and noted. */
  lemma RefusedChangesNothing(row: RuntimeRow, op: RowOp, now: Time)
    requires !Commits(row, op, now)
    ensures
      var next := RowStep(row, op, now);
      if !op.Claim? then next == row
      else
        && RefusalNoted(row, next.lastSkipReason)
        && next == row.(lastSkipReason := next.lastSkipReason, scanGuardCount := row.scanGuardCount + 1,
                        updatedAt := now)
  {
    CommitsExactly(row, op, now);
  }

  // ---- kinds of calls ----

  /** The row is replaced: stop, start, restart. */
  predicate Wipes(op: RowOp) {
    op.ResetTo? || op.RestartRuntime?
  }

  predicate Starts(op: RowOp) {
    op.Claim? || op.MarkRunning?
  }

  predicate Succeeds(op: RowOp) {
    op.MarkIdle? || op.MarkIdleIfNotRunning? || op.GuardedIdle?
  }

  predicate Skips(op: RowOp) {
    op.ApplySkip? || op.GuardedSkip?
  }

  predicate Retries(op: RowOp) {
    op.RetryAfterRestart? || op.GuardedRetryAfterLock? || op.RetryAfterLockIfNotRunning?
  }

  /** The failure decision the call writes; a stale active row fails on its own streak. */
  function FailureOf(row: RuntimeRow, op: RowOp): Option<Decision> {
    match op
    case ApplyFailure(d, _) => Some(d)
    case GuardedFailure(d, _, _) => Some(d)
    case RecoverStaleRunning(_) =>
      if row.desired == Active then Some(Decide(STALE_RUNNING, RuntimeRecovery, row.failureReason, row.failureCount))
      else None
    case _ => None
  }

  predicate Fails(row: RuntimeRow, op: RowOp) {
    FailureOf(row, op).Some?
  }

  /** The call ends an attempt with an outcome. */
  predicate Finishes(row: RuntimeRow, op: RowOp) {
    Succeeds(op) || Skips(op) || Fails(row, op)
  }

  /** The call takes the row out of queue and ownership. */
  predicate Frees(row: RuntimeRow, op: RowOp) {
    || Finishes(row, op) || Retries(op) || op.CancelQueued? || op.GuardedCancel?
    || op.RecoverStaleRunning? || op.RecoverStaleQueued?
  }

  /** The call shows that the owner is alive. */
  predicate Beats(op: RowOp) {
    op.Heartbeat? || op.GuardedHeartbeat? || op.PageReloaded? || op.GuardedPageReloaded?
  }

  // ---- failures ----

  function Seconds(t: Time): int {
    t / SECOND
  }

  /** The error shown after a terminal failure. */
  function ErrorShown(row: RuntimeRow, op: RowOp): Message
    requires Fails(row, op)
  {
    var d := FailureOf(row, op).value;
    if d.countsTowardStreak then RetryExhausted(d.reason, d.retryStreak, d.retryLimit)
    else
      match op
      case ApplyFailure(_, e) => e
      case GuardedFailure(_, e, _) => e
      case RecoverStaleRunning(after) => HeartbeatExpired(STALE_RUNNING, Seconds(after))
  }

  /** A counted failure that will be retried says how. */
  function FailureNote(d: Decision): Message {
    if !d.Terminal() && d.countsTowardStreak && d.recoveryAction != ""
    then RetryNote(d.recoveryAction, d.retryStreak, d.retryLimit, d.retryDelaySeconds)
    else NoMessage
  }

  /** What a failure leaves besides the request and the streak. */
  ghost predicate Failed(row: RuntimeRow, d: Decision, error: Message, now: Time, next: RuntimeRow) {
    && next.status == (if d.Terminal() then InError else Idle)
    && next.lastFinishedAt == Some(now) && next.lastHeartbeatAt == Some(now)
    && next.skipReason == "" && next.skipCount == 0
    && next.lastError == (if d.Terminal() then error else NoMessage)
    && next.lastSkipReason == FailureNote(d)
  }

  lemma DecisionWrites(row: RuntimeRow, d: Decision, error: Message, now: Time)
    ensures
      var shown := if d.countsTowardStreak then RetryExhausted(d.reason, d.retryStreak, d.retryLimit) else error;
      Failed(row, d, shown, now, FailureDecisionState(row, d, error, now))
  {
  }

  lemma PlainFailureWrites(row: RuntimeRow, op: RowOp, now: Time)
    requires op.ApplyFailure?
    ensures Failed(row, op.decision, ErrorShown(row, op), now, RowStep(row, op, now))
  {
    DecisionWrites(row, op.decision, op.error, now);
  }

  lemma GuardedFailureWrites(row: RuntimeRow, op: RowOp, now: Time)
    requires op.GuardedFailure? && Commits(row, op, now)
    ensures Failed(row, op.decision, ErrorShown(row, op), now, RowStep(row, op, now))
  {
    DecisionWrites(row, op.decision, op.error, now);
  }

  /** The failed row with a request newer than the attempt's start spared. */
  function SparingNew(row: RuntimeRow, failed: RuntimeRow): RuntimeRow {
    failed.(scanRequestedAt := if row.lastStartedAt.Some? && NewSince(row, row.lastStartedAt.value)
    then row.scanRequestedAt else failed.scanRequestedAt)
  }

  lemma PreservedIsSparing(row: RuntimeRow, failed: RuntimeRow)
    requires row.desired == Active && failed.desired == Active && row.lastStartedAt.Some?
    ensures failed.(scanRequestedAt := PreservedScanRequest(row, failed, row.lastStartedAt.value)) ==
            SparingNew(row, failed)
  {
  }

  /** A stale active row fails on its own streak, and a request newer than its start is spared. */
  lemma StaleRow(row: RuntimeRow, after: Time, now: Time)
    requires row.desired == Active && Commits(row, RecoverStaleRunning(after), now)
    ensures RowStep(row, RecoverStaleRunning(after), now) ==
            SparingNew(row, FailureDecisionState(row, StaleDecision(row),
                                                 HeartbeatExpired(STALE_RUNNING, Seconds(after)), now))
  {
    var failed :=
      FailureDecisionState(row, StaleDecision(row), HeartbeatExpired(STALE_RUNNING, Seconds(after)), now);
    DecisionKeepsDesired(row, StaleDecision(row), HeartbeatExpired(STALE_RUNNING, Seconds(after)), now);
    PreservedIsSparing(row, failed);
    assert RecoveredRunning(row, after, now) ==
           Some(failed.(scanRequestedAt := PreservedScanRequest(row, failed, row.lastStartedAt.value)));
  }

  lemma DecisionKeepsDesired(row: RuntimeRow, d: Decision, error: Message, now: Time)
    ensures FailureDecisionState(row, d, error, now).desired == row.desired
  {
  }

  lemma StaleFailureWrites(row: RuntimeRow, op: RowOp, now: Time)
    requires op.RecoverStaleRunning? && row.desired == Active && Commits(row, op, now)
    ensures Failed(row, FailureOf(row, op).value, ErrorShown(row, op), now, RowStep(row, op, now))
  {
    StaleRow(row, op.staleAfter, now);
    DecisionWrites(row, FailureOf(row, op).value, HeartbeatExpired(STALE_RUNNING, Seconds(op.staleAfter)), now);
  }

  lemma FailureWrites(row: RuntimeRow, op: RowOp, now: Time)
    requires Commits(row, op, now) && Fails(row, op)
    ensures Failed(row, FailureOf(row, op).value, ErrorShown(row, op), now, RowStep(row, op, now))
  {
    if op.ApplyFailure? {
      PlainFailureWrites(row, op, now);
    } else if op.GuardedFailure? {
      GuardedFailureWrites(row, op, now);
    } else {
      StaleFailureWrites(row, op, now);
    }
  }

  // ---- field by field ----

  /** What the row is wanted to be. */
  lemma DesiredEffect(row: RuntimeRow, op: RowOp, now: Time)
    requires Commits(row, op, now)
    ensures RowStep(row, op, now).desired ==
            match op case ResetTo(d) => d case RestartRuntime => Active case _ => row.desired
  {
  }

  /** The status. */
  lemma StatusEffect(row: RuntimeRow, op: RowOp, now: Time)
    requires Commits(row, op, now)
    ensures RowStep(row, op, now).status ==
            if op.MarkQueued? then Queued
            else if Starts(op) then Running
            else if Fails(row, op) && FailureOf(row, op).value.Terminal() then InError
            else if Wipes(op) || Frees(row, op) then Idle
            else row.status
  {
    if Fails(row, op) {
      FailureWrites(row, op, now);
    }
  }

  /** Why the row is queued. */
  lemma QueueReasonEffect(row: RuntimeRow, op: RowOp, now: Time)
    requires Commits(row, op, now)
    ensures RowStep(row, op, now).enqueueReason ==
            if op.MarkQueued? then op.reason else if Wipes(op) || Frees(row, op) then "" else row.enqueueReason
  {
  }

  /** The worker that owns the row. */
  lemma WorkerEffect(row: RuntimeRow, op: RowOp, now: Time)
    requires Commits(row, op, now)
    ensures RowStep(row, op, now).activeWorkerId ==
            match op
            case Claim(w, _) => w
            case MarkRunning(w, _) => w
            case _ => if op.MarkQueued? || Wipes(op) || Frees(row, op) then "" else row.activeWorkerId
  {
  }

  /** The page the owner works on. */
  lemma PageEffect(row: RuntimeRow, op: RowOp, now: Time)
    requires Commits(row, op, now)
    ensures RowStep(row, op, now).activePageId ==
            match op
            case Claim(_, p) => p
            case MarkRunning(_, p) => p
            case Heartbeat(_, p) => if p != "" then p else row.activePageId
            case PageReloaded(p, _) => if p != "" then p else row.activePageId
            case _ => if op.MarkQueued? || Wipes(op) || Frees(row, op) then "" else row.activePageId
  {
  }

  /** The time of the last enqueue. */
  lemma EnqueuedAtEffect(row: RuntimeRow, op: RowOp, now: Time)
    requires Commits(row, op, now)
    ensures RowStep(row, op, now).lastEnqueuedAt ==
            if op.MarkQueued? then Some(now) else if Wipes(op) then None else row.lastEnqueuedAt
  {
  }

  /** The time of the last start. */
  lemma StartedAtEffect(row: RuntimeRow, op: RowOp, now: Time)
    requires Commits(row, op, now)
    ensures RowStep(row, op, now).lastStartedAt ==
            if Starts(op) then Some(now) else if Wipes(op) then None else row.lastStartedAt
  {
  }

  /** The time of the last outcome. */
  lemma FinishedAtEffect(row: RuntimeRow, op: RowOp, now: Time)
    requires Commits(row, op, now)
    ensures RowStep(row, op, now).lastFinishedAt ==
            if Finishes(row, op) then Some(now) else if Wipes(op) then None else row.lastFinishedAt
  {
    if Fails(row, op) {
      FailureWrites(row, op, now);
    }
  }

  /** The last sign of life: a start, a heartbeat, a reload or an outcome. */
  lemma HeartbeatEffect(row: RuntimeRow, op: RowOp, now: Time)
    requires Commits(row, op, now)
    ensures RowStep(row, op, now).lastHeartbeatAt ==
            if Starts(op) || Beats(op) || Finishes(row, op) then Some(now)
            else if Wipes(op) then None else row.lastHeartbeatAt
  {
    if Fails(row, op) {
      FailureWrites(row, op, now);
    }
  }

  /** The time of the last page reload, which a restart keeps. */
  lemma ReloadedAtEffect(row: RuntimeRow, op: RowOp, now: Time)
    requires Commits(row, op, now)
    ensures RowStep(row, op, now).lastPageReloadedAt ==
            match op
            case PageReloaded(_, at) => Some(at.GetOr(now))
            case GuardedPageReloaded(_, at) => Some(at.GetOr(now))
            case ResetTo(_) => None
            case _ => row.lastPageReloadedAt
  {
  }

  /** Every write is stamped. */
  lemma UpdatedAtEffect(row: RuntimeRow, op: RowOp, now: Time)
    requires Commits(row, op, now)
    ensures RowStep(row, op, now).updatedAt == now
  {
  }

  /** The request is newer than the last enqueue or the last start, or nothing was ever enqueued or started. */
  predicate Outlives(row: RuntimeRow) {
    && row.scanRequestedAt.Some?
    && (|| (row.lastEnqueuedAt.None? && row.lastStartedAt.None?)
        || (row.lastEnqueuedAt.Some? && row.lastEnqueuedAt.value < row.scanRequestedAt.value)
        || (row.lastStartedAt.Some? && row.lastStartedAt.value < row.scanRequestedAt.value))
  }

  /** A request of an active target made after the owner started. */
  predicate NewSince(row: RuntimeRow, startedAt: Time) {
    row.desired == Active && row.scanRequestedAt.Some? && startedAt < row.scanRequestedAt.value
  }

  /** The start of the attempt whose guarded write the call is. */
  function AttemptStart(row: RuntimeRow, op: RowOp): Option<Time> {
    match op
    case GuardedIdle(o) => Some(o.startedAt)
    case GuardedSkip(_, o) => Some(o.startedAt)
    case GuardedFailure(_, _, o) => Some(o.startedAt)
    case GuardedRetryAfterLock(o) => Some(o.startedAt)
    case RecoverStaleRunning(_) => row.lastStartedAt
    case _ => None
  }

  /** The call asks for a scan itself: a request, a retry, a restart, or a failure that restarts on its own. */
  predicate Asks(row: RuntimeRow, op: RowOp) {
    || op.RequestScan? || op.RestartRuntime? || Retries(op)
    || (Fails(row, op) && !FailureOf(row, op).value.Terminal()
        && FailureOf(row, op).value.countsTowardStreak && FailureOf(row, op).value.autoRestart)
  }

  /** The call drops the request whatever it is. */
  predicate Drops(row: RuntimeRow, op: RowOp) {
    || op.ClearRequest? || op.ClearRequestIfNotNewer? || op.ResetTo?
    || (Fails(row, op) && FailureOf(row, op).value.Terminal())
    || (op.RecoverStaleRunning? && row.desired == Stopped)
  }

  /** Main result: the pending request after any call. */
  lemma RequestEffect(row: RuntimeRow, op: RowOp, now: Time)
    requires Commits(row, op, now)
    ensures RowStep(row, op, now).scanRequestedAt == RequestAfter(row, op, now)
  {
    if Fails(row, op) {
      FailureRequestEffect(row, op, now);
    } else if Finishes(row, op) || Retries(op) || op.RecoverStaleRunning? {
      OutcomeRequestEffect(row, op, now);
    } else {
      OtherRequestEffect(row, op, now);
    }
  }

  /** A guarded write spares a request newer than its attempt; otherwise the call asks, drops, or lets the request
      stand, and an outcome lets it stand only if it outlives the attempt. */
  function RequestAfter(row: RuntimeRow, op: RowOp, now: Time): Option<Time> {
    if AttemptStart(row, op).Some? && NewSince(row, AttemptStart(row, op).value) then row.scanRequestedAt
    else if Asks(row, op) then Some(now)
    else if Drops(row, op) then None
    else if Finishes(row, op) && !Outlives(row) then None
    else row.scanRequestedAt
  }

  lemma FailureRequestEffect(row: RuntimeRow, op: RowOp, now: Time)
    requires Commits(row, op, now) && Fails(row, op)
    ensures RowStep(row, op, now).scanRequestedAt == RequestAfter(row, op, now)
  {
    if op.ApplyFailure? {
      PlainFailureRequest(row, op, now);
    } else if op.GuardedFailure? {
      GuardedFailureRequest(row, op, now);
    } else {
      StaleFailureRequest(row, op, now);
    }
  }

  lemma PlainFailureRequest(row: RuntimeRow, op: RowOp, now: Time)
    requires op.ApplyFailure?
    ensures RowStep(row, op, now).scanRequestedAt == RequestAfter(row, op, now)
  {
  }

  lemma GuardedFailureRequest(row: RuntimeRow, op: RowOp, now: Time)
    requires op.GuardedFailure? && Commits(row, op, now)
    ensures RowStep(row, op, now).scanRequestedAt == RequestAfter(row, op, now)
  {
  }

  lemma StaleFailureRequest(row: RuntimeRow, op: RowOp, now: Time)
    requires op.RecoverStaleRunning? && row.desired == Active && Commits(row, op, now)
    ensures RowStep(row, op, now).scanRequestedAt == RequestAfter(row, op, now)
  {
    StaleRow(row, op.staleAfter, now);
    DecisionRequest(row, FailureOf(row, op).value, HeartbeatExpired(STALE_RUNNING, Seconds(op.staleAfter)), now);
  }

  /** The request a failure decision leaves before any is spared. */
  lemma DecisionRequest(row: RuntimeRow, d: Decision, error: Message, now: Time)
    ensures FailureDecisionState(row, d, error, now).scanRequestedAt ==
            if d.Terminal() then None
            else if d.countsTowardStreak && d.autoRestart then Some(now)
            else if Outlives(row) then row.scanRequestedAt else None
  {
  }

  lemma OutcomeRequestEffect(row: RuntimeRow, op: RowOp, now: Time)
    requires Commits(row, op, now) && !Fails(row, op)
    requires Succeeds(op) || Skips(op) || Retries(op) || op.RecoverStaleRunning?
    ensures RowStep(row, op, now).scanRequestedAt == RequestAfter(row, op, now)
  {
    if AttemptStart(row, op).Some? {
      GuardedOutcomeRequest(row, op, now);
    }
  }

  lemma GuardedOutcomeRequest(row: RuntimeRow, op: RowOp, now: Time)
    requires Commits(row, op, now) && !Fails(row, op)
    requires op.GuardedIdle? || op.GuardedSkip? || op.GuardedRetryAfterLock? || op.RecoverStaleRunning?
    ensures RowStep(row, op, now).scanRequestedAt == RequestAfter(row, op, now)
  {
  }

  lemma OtherRequestEffect(row: RuntimeRow, op: RowOp, now: Time)
    requires Commits(row, op, now) && !Finishes(row, op) && !Retries(op) && !op.RecoverStaleRunning?
    ensures RowStep(row, op, now).scanRequestedAt == RequestAfter(row, op, now)
  {
  }

  /** The reason of the failure streak. */
  lemma FailureReasonEffect(row: RuntimeRow, op: RowOp, now: Time)
    requires Commits(row, op, now)
    ensures RowStep(row, op, now).failureReason ==
            if Wipes(op) || Succeeds(op) then ""
            else if Fails(row, op) then
              if FailureOf(row, op).value.countsTowardStreak then FailureOf(row, op).value.reason else ""
            else row.failureReason
  {
  }

  /** The length of the failure streak. */
  lemma FailureCountEffect(row: RuntimeRow, op: RowOp, now: Time)
    requires Commits(row, op, now)
    ensures RowStep(row, op, now).failureCount ==
            if Wipes(op) || Succeeds(op) then 0
            else if Fails(row, op) then CountWritten(FailureOf(row, op).value)
            else row.failureCount
  {
  }

  function CountWritten(d: Decision): int {
    if !d.countsTowardStreak || (d.Terminal() && d.retryStreak < 0) then 0 else d.retryStreak
  }

  /** The reason of the skip streak. */
  lemma SkipReasonEffect(row: RuntimeRow, op: RowOp, now: Time)
    requires Commits(row, op, now)
    ensures RowStep(row, op, now).skipReason ==
            if Skips(op) then op.skip.reason
            else if Wipes(op) || Succeeds(op) || Fails(row, op) then ""
            else row.skipReason
  {
    if Fails(row, op) {
      FailureWrites(row, op, now);
    }
  }

  /** The length of the skip streak. */
  lemma SkipCountEffect(row: RuntimeRow, op: RowOp, now: Time)
    requires Commits(row, op, now)
    ensures RowStep(row, op, now).skipCount ==
            if Skips(op) then op.skip.streak
            else if Wipes(op) || Succeeds(op) || Fails(row, op) then 0
            else row.skipCount
  {
    if Fails(row, op) {
      FailureWrites(row, op, now);
    }
  }

  /** The displayed due time. */
  lemma DisplayEffect(row: RuntimeRow, op: RowOp, now: Time)
    requires Commits(row, op, now)
    ensures RowStep(row, op, now).displayNextDueAt ==
            if op.SetDisplayDue? then op.dueAt else if Wipes(op) then None else row.displayNextDueAt
  {
  }

  /** The number of skipped admissions; a refused claim counts too, see RefusedChangesNothing. */
  lemma GuardCountEffect(row: RuntimeRow, op: RowOp, now: Time)
    requires Commits(row, op, now)
    ensures RowStep(row, op, now).scanGuardCount ==
            if op.RecordGuardSkip? then row.scanGuardCount + 1 else if op.ResetTo? then 0 else row.scanGuardCount
  {
  }

  /** The error text. */
  lemma ErrorEffect(row: RuntimeRow, op: RowOp, now: Time)
    requires Commits(row, op, now)
    ensures RowStep(row, op, now).lastError ==
            if Fails(row, op) && FailureOf(row, op).value.Terminal() then ErrorShown(row, op)
            else if op.MarkQueued? || Starts(op) || Wipes(op) || Finishes(row, op)
                    || op.RecoverStaleRunning? || op.RecoverStaleQueued? then NoMessage
            else row.lastError
  {
    if Fails(row, op) {
      FailureWrites(row, op, now);
    }
  }

  /** The note an outcome or a recovery leaves. */
  function NoteOf(row: RuntimeRow, op: RowOp): Message {
    match op
    case ApplySkip(d) => SkipNote(d.reason, d.streak, d.limit)
    case GuardedSkip(d, _) => SkipNote(d.reason, d.streak, d.limit)
    case RecoverStaleQueued(after) => QueueWaitExpired(Seconds(after))
    case RecoverStaleRunning(after) =>
      if row.desired == Stopped then InactiveOwnerExpired(Seconds(after)) else FailureNote(FailureOf(row, op).value)
    case ApplyFailure(d, _) => FailureNote(d)
    case GuardedFailure(d, _, _) => FailureNote(d)
    case _ => NoMessage
  }

  /** The note text. */
  lemma NoteEffect(row: RuntimeRow, op: RowOp, now: Time)
    requires Commits(row, op, now)
    ensures RowStep(row, op, now).lastSkipReason ==
            if op.RecordGuardSkip? then op.message
            else if op.MarkQueued? || Starts(op) || Wipes(op) then NoMessage
            else if Finishes(row, op) || op.RecoverStaleRunning? || op.RecoverStaleQueued? then NoteOf(row, op)
            else row.lastSkipReason
  {
    if Fails(row, op) {
      FailureWrites(row, op, now);
    } else if Finishes(row, op) || op.RecoverStaleRunning? || op.RecoverStaleQueued? {
      OutcomeNoteEffect(row, op, now);
    } else {
      OtherNoteEffect(row, op, now);
    }
  }

  lemma OutcomeNoteEffect(row: RuntimeRow, op: RowOp, now: Time)
    requires Commits(row, op, now) && !Fails(row, op)
    requires Succeeds(op) || Skips(op) || op.RecoverStaleRunning? || op.RecoverStaleQueued?
    ensures RowStep(row, op, now).lastSkipReason == NoteOf(row, op)
  {
  }

  lemma OtherNoteEffect(row: RuntimeRow, op: RowOp, now: Time)
    requires Commits(row, op, now)
    requires !Finishes(row, op) && !op.RecoverStaleRunning? && !op.RecoverStaleQueued?
    ensures RowStep(row, op, now).lastSkipReason ==
            if op.RecordGuardSkip? then op.message
            else if op.MarkQueued? || Starts(op) || Wipes(op) then NoMessage
            else row.lastSkipReason
  {
  }
}
