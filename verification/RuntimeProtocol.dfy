/** The target runtime protocol as a state machine: one step per service call, and runs of steps. */
module RuntimeProtocol {
  import opened Options
  import opened RuntimeRows
  import opened ScanFailurePolicy

  type Id = string
  datatype TargetKind = Posts | Comments

  /** A row of the targets table; names, URLs and metadata are one opaque value. */
  datatype TargetRow = TargetRow(
    kind: TargetKind, scopeId: string, details: string, enabled: bool, paused: bool, createdAt: Time, updatedAt: Time
  ) {
    predicate IsActive() {
      enabled && !paused
    }

    predicate InScope(kind: TargetKind, scopeId: string) {
      this.kind == kind && this.scopeId == scopeId
    }
  }

  datatype Db = Db(targets: map<Id, TargetRow>, rows: map<Id, RuntimeRow>)

  /** One runtime service call on one target. */
  datatype RowOp =
    | MarkQueued(reason: string)
    | Claim(workerId: string, pageId: string)
    | MarkRunning(workerId: string, pageId: string)
    | PageReloaded(pageId: string, reloadedAt: Option<Time>)
    | GuardedPageReloaded(owner: Owner, reloadedAt: Option<Time>)
    | Heartbeat(workerId: string, pageId: string)
    | GuardedHeartbeat(owner: Owner)
    | RecordGuardSkip(message: Message)
    | MarkIdle
    | MarkIdleIfNotRunning
    | GuardedIdle(owner: Owner)
    | CancelQueued
    | GuardedCancel(owner: Owner)
    | ApplySkip(skip: SkipDecision)
    | GuardedSkip(skip: SkipDecision, owner: Owner)
    | ApplyFailure(decision: Decision, error: Message)
    | GuardedFailure(decision: Decision, error: Message, owner: Owner)
    | RetryAfterRestart
    | GuardedRetryAfterLock(owner: Owner)
    | RetryAfterLockIfNotRunning
    | ResetTo(desired: DesiredState)
    | RestartRuntime
    | SetDisplayDue(dueAt: Option<Time>)
    | RequestScan
    | ClearRequest
    | ClearRequestIfNotNewer(consumedAt: Time)
    | RecoverStaleRunning(staleAfter: Time)
    | RecoverStaleQueued(staleAfter: Time)

  /** The owner a guarded write names; None for writes without an owner guard. */
  function GuardOf(op: RowOp): Option<Owner> {
    match op
    case GuardedPageReloaded(o, _) => Some(o)
    case GuardedHeartbeat(o) => Some(o)
    case GuardedIdle(o) => Some(o)
    case GuardedCancel(o) => Some(o)
    case GuardedSkip(_, o) => Some(o)
    case GuardedFailure(_, _, o) => Some(o)
    case GuardedRetryAfterLock(o) => Some(o)
    case _ => None
  }

  function StaleDecision(row: RuntimeRow): Decision {
    DecideFailureOn(row, STALE_RUNNING, RuntimeRecovery)
  }

  /** What the sweep writes over a stale running row that records its start. */
  function RecoveredRunning(row: RuntimeRow, staleAfter: Time, now: Time): Option<RuntimeRow> {
    if row.lastStartedAt.None? then None
    else
      var next :=
        if row.desired != Active then StaleRunningInactiveRecoveredState(row, staleAfter, now)
        else FailureDecisionState(row, StaleDecision(row), HeartbeatExpired(STALE_RUNNING, staleAfter / SECOND), now);
      SaveStaleRunningIfUnchanged(row, next,
                                  Owner(row.activeWorkerId, row.lastStartedAt.value, row.activePageId),
                                  now - staleAfter)
  }

  function RecoveredQueued(row: RuntimeRow, staleAfter: Time, now: Time): Option<RuntimeRow> {
    SaveStaleQueuedIfUnchanged(row, StaleQueuedRecoveredState(row, staleAfter, now),
                               row.lastEnqueuedAt, row.updatedAt, now - staleAfter)
  }

  /** The row a call commits, or None when its condition does not hold. */
  function Attempt(row: RuntimeRow, op: RowOp, now: Time): Option<RuntimeRow> {
    match op
    case MarkQueued(reason) => MarkQueuedIfIdle(row, reason, now)
    case Claim(w, p) => TryMarkRunning(row, w, p, now)
    case MarkRunning(w, p) => Some(MarkedRunning(row, w, p, now))
    case PageReloaded(p, at) => Some(HeartbeatRecorded(row, p, now).(lastPageReloadedAt := Some(at.GetOr(now))))
    case GuardedPageReloaded(o, at) => PageReloadedIfOwner(row, o, at.GetOr(now), now)
    case Heartbeat(w, p) => HeartbeatIfRunning(row, w, p, now)
    case GuardedHeartbeat(o) => HeartbeatIfOwner(row, o, now)
    case RecordGuardSkip(m) => Some(GuardSkipRecorded(row, m, now))
    case MarkIdle => Some(IdleState(row, now))
    case MarkIdleIfNotRunning => SaveIfNotRunning(row, IdleState(row, now))
    case GuardedIdle(o) => SaveIfRunningOwner(row, IdleState(row, now), o)
    case CancelQueued => CancelIfQueued(row, now)
    case GuardedCancel(o) => CancelIfOwner(row, o, now)
    case ApplySkip(d) => Some(ScanSkippedState(row, d, now))
    case GuardedSkip(d, o) => SaveIfRunningOwner(row, ScanSkippedState(row, d, now), o)
    case ApplyFailure(d, e) => Some(FailureDecisionState(row, d, e, now))
    case GuardedFailure(d, e, o) => SaveIfRunningOwner(row, FailureDecisionState(row, d, e, now), o)
    case RetryAfterRestart => Some(RetryRequestedState(row, now))
    case GuardedRetryAfterLock(o) => SaveIfRunningOwner(row, RetryRequestedState(row, now), o)
    case RetryAfterLockIfNotRunning => SaveIfNotRunning(row, RetryRequestedState(row, now))
    case ResetTo(desired) => Some(FreshRow(desired, now))
    case RestartRuntime => Some(RestartedState(row, now))
    case SetDisplayDue(due) =>
      if row.displayNextDueAt == due then None else Some(DisplayDueSet(row, due, now))
    case RequestScan => Some(ScanRequestSet(row, Some(now), now))
    case ClearRequest => Some(ScanRequestSet(row, None, now))
    case ClearRequestIfNotNewer(c) => ClearScanRequestIfNotNewer(row, c, now)
    case RecoverStaleRunning(after) => RecoveredRunning(row, after, now)
    case RecoverStaleQueued(after) => RecoveredQueued(row, after, now)
  }

  /** The note a refused claim leaves. */
  function ClaimRefusal(row: RuntimeRow): Message {
    if row.status == Running then AlreadyRunning(row.activeWorkerId)
    else if row.desired != Active then NotActive(row.desired)
    else ClaimConflict
  }

  function RowStep(row: RuntimeRow, op: RowOp, now: Time): RuntimeRow {
    match Attempt(row, op, now)
    case Some(next) => next
    case None => if op.Claim? then GuardSkipRecorded(row, ClaimRefusal(row), now) else row
  }

  /** Calls that answer None for an inactive target before they look at the row. */
  predicate OnlyIfActive(op: RowOp) {
    op.GuardedRetryAfterLock? || op.RetryAfterLockIfNotRunning?
  }

  /** Calls that create a missing row before they write. */
  predicate EnsuresRow(op: RowOp) {
    !op.GuardedPageReloaded? && !op.GuardedHeartbeat? && !op.RecoverStaleRunning? && !op.RecoverStaleQueued?
  }

  function DesiredFor(target: TargetRow): DesiredState {
    if target.IsActive() then Active else Stopped
  }

  /** ensure_runtime_state */
  function Ensured(db: Db, id: Id, now: Time): RuntimeRow
    requires id in db.targets
  {
    if id in db.rows then db.rows[id] else FreshRow(DesiredFor(db.targets[id]), now)
  }

  function OnRowStep(db: Db, id: Id, op: RowOp, now: Time): Db {
    if id !in db.targets || (OnlyIfActive(op) && !db.targets[id].IsActive()) || (id !in db.rows && !EnsuresRow(op))
    then db
    else db.(rows := db.rows[id := RowStep(Ensured(db, id, now), op, now)])
  }

  /** The stale-running sweep on one row. */
  function SweptRunning(row: RuntimeRow, staleAfter: Time, now: Time): RuntimeRow {
    RecoveredRunning(row, staleAfter, now).GetOr(row)
  }

  function SweptQueued(row: RuntimeRow, staleAfter: Time, now: Time): RuntimeRow {
    RecoveredQueued(row, staleAfter, now).GetOr(row)
  }

  datatype Action =
    | OnRow(id: Id, op: RowOp)
    | Upsert(id: Id, kind: TargetKind, scopeId: string, details: string)
    | EditDetails(id: Id, details: string)
    | UpdateStatus(id: Id, enabled: bool, paused: bool)
    | RestartMonitoring(id: Id, details: string)
    | PauseAll
    | Delete(id: Id)
    | SweepRunning(staleAfter: Time)
    | SweepQueued(staleAfter: Time)

  datatype Event = Event(action: Action, now: Time)

  function SetStatus(db: Db, id: Id, enabled: bool, paused: bool, now: Time): Db
    requires id in db.targets
  {
    OnRowStep(db.(targets := db.targets[id := db.targets[id].(enabled := enabled, paused := paused, updatedAt := now)]),
              id, ResetTo(if enabled && !paused then Active else Stopped), now)
  }

  function PausedTarget(t: TargetRow, now: Time): TargetRow {
    if t.IsActive() then t.(enabled := true, paused := true, updatedAt := now) else t
  }

  /** Registration: a known target keeps its switches, a new one starts paused; either way it has a runtime row. */
  function Upserted(db: Db, id: Id, kind: TargetKind, scopeId: string, details: string, now: Time): Db {
    var target :=
      if id in db.targets then db.targets[id].(details := details, updatedAt := now)
      else TargetRow(kind, scopeId, details, true, true, now, now);
    var saved := db.(targets := db.targets[id := target]);
    saved.(rows := saved.rows[id := Ensured(saved, id, now)])
  }

  function Step(db: Db, e: Event): Db {
    match e.action
    case OnRow(id, op) => OnRowStep(db, id, op, e.now)
    case Upsert(id, kind, scopeId, details) => Upserted(db, id, kind, scopeId, details, e.now)
    case EditDetails(id, details) =>
      if id !in db.targets then db
      else db.(targets := db.targets[id := db.targets[id].(details := details, updatedAt := e.now)])
    case UpdateStatus(id, enabled, paused) =>
      if id !in db.targets then db else SetStatus(db, id, enabled, paused, e.now)
    case RestartMonitoring(id, details) =>
      if id !in db.targets then db
      else
        var target := db.targets[id].(details := details, enabled := true, paused := false, updatedAt := e.now);
        OnRowStep(db.(targets := db.targets[id := target]), id, RestartRuntime, e.now)
    case PauseAll =>
      Db(map id | id in db.targets :: PausedTarget(db.targets[id], e.now),
         map id | id in db.rows.Keys + ActiveIds(db) ::
           if id in ActiveIds(db) then FreshRow(Stopped, e.now) else db.rows[id])
    case Delete(id) => Db(db.targets - {id}, db.rows - {id})
    case SweepRunning(after) => db.(rows := map id | id in db.rows :: SweptRunning(db.rows[id], after, e.now))
    case SweepQueued(after) => db.(rows := map id | id in db.rows :: SweptQueued(db.rows[id], after, e.now))
  }

  function ActiveIds(db: Db): set<Id> {
    set id | id in db.targets && db.targets[id].IsActive()
  }

  /** A run: the events and the states around them. */
  datatype Run = Run(states: seq<Db>, events: seq<Event>) {
    ghost predicate Valid() {
      && |states| == |events| + 1
      && forall k {:trigger Step(states[k], events[k])} ::
           0 <= k < |events| ==> states[k + 1] == Step(states[k], events[k])
    }
  }

  /** Every list of events is a run from every database. */
  function RunOf(db: Db, events: seq<Event>): (r: Run)
    ensures r.Valid() && r.events == events && r.states[0] == db
  {
    if events == [] then Run([db], [])
    else
      var n := |events| - 1;
      var r := RunOf(db, events[..n]);
      Run(r.states + [Step(r.states[n], events[n])], events)
  }

  /** The row operation an action performs on an existing row of the given target. */
  function OpOn(db: Db, action: Action, id: Id): Option<RowOp> {
    match action
    case OnRow(i, op) =>
      if i == id && id in db.targets && (OnlyIfActive(op) ==> db.targets[id].IsActive()) then Some(op) else None
    case Upsert(_, _, _, _) => None
    case EditDetails(_, _) => None
    case UpdateStatus(i, enabled, paused) =>
      if i == id && id in db.targets then Some(ResetTo(if enabled && !paused then Active else Stopped)) else None
    case RestartMonitoring(i, _) => if i == id && id in db.targets then Some(RestartRuntime) else None
    case PauseAll => if id in ActiveIds(db) then Some(ResetTo(Stopped)) else None
    case Delete(_) => None
    case SweepRunning(after) => Some(RecoverStaleRunning(after))
    case SweepQueued(after) => Some(RecoverStaleQueued(after))
  }

  function RowAfter(row: RuntimeRow, op: Option<RowOp>, now: Time): RuntimeRow {
    match op
    case None => row
    case Some(o) => RowStep(row, o, now)
  }

  /** A sweep acts on every row as its row operation. */
  lemma SweepOnEachRow(db: Db, e: Event, id: Id)
    requires id in db.rows && (e.action.SweepRunning? || e.action.SweepQueued?)
    ensures id in Step(db, e).rows
    ensures Step(db, e).rows[id] == RowStep(db.rows[id], OpOn(db, e.action, id).value, e.now)
  {
    if e.action.SweepRunning? {
      var op := RecoverStaleRunning(e.action.staleAfter);
      assert RowStep(db.rows[id], op, e.now) == SweptRunning(db.rows[id], op.staleAfter, e.now);
    } else {
      var op := RecoverStaleQueued(e.action.staleAfter);
      assert RowStep(db.rows[id], op, e.now) == SweptQueued(db.rows[id], op.staleAfter, e.now);
    }
  }

  /** Every action acts on every row through OpOn: what is proved of RowStep lifts to the whole database. */
  lemma StepOnRow(db: Db, e: Event, id: Id)
    requires id in db.rows
    ensures e.action != Delete(id) ==> id in Step(db, e).rows
    ensures id in Step(db, e).rows ==> Step(db, e).rows[id] == RowAfter(db.rows[id], OpOn(db, e.action, id), e.now)
  {
    if e.action.SweepRunning? || e.action.SweepQueued? {
      SweepOnEachRow(db, e, id);
    }
  }

  /** A row an operation creates is the operation's step on a fresh row. */
  lemma OnRowCreates(db: Db, id: Id, op: RowOp, now: Time)
    requires id !in db.rows && id in OnRowStep(db, id, op, now).rows
    ensures id in db.targets && (OnlyIfActive(op) ==> db.targets[id].IsActive())
    ensures OnRowStep(db, id, op, now).rows[id] == RowStep(FreshRow(DesiredFor(db.targets[id]), now), op, now)
  {
  }

  lemma SwitchCreates(db: Db, e: Event, id: Id)
    requires id !in db.rows && id in Step(db, e).rows && (e.action.UpdateStatus? || e.action.RestartMonitoring?)
    ensures exists desired, op ::
        Step(db, e).rows[id] == RowAfter(FreshRow(desired, e.now), op, e.now)
        && (op == None || op == OpOn(db, e.action, id))
  {
    var row := Step(db, e).rows[id];
    if e.action.UpdateStatus? {
      var desired := if e.action.enabled && !e.action.paused then Active else Stopped;
      assert row == RowAfter(FreshRow(desired, e.now), None, e.now);
    } else {
      assert row == RowAfter(FreshRow(Active, e.now), Some(RestartRuntime), e.now);
    }
  }

  /** A row that appears was created fresh, then acted upon at most once. */
  lemma StepOnNewRow(db: Db, e: Event, id: Id)
    requires id !in db.rows && id in Step(db, e).rows
    ensures exists desired, op ::
        Step(db, e).rows[id] == RowAfter(FreshRow(desired, e.now), op, e.now)
        && (op == None || op == OpOn(db, e.action, id))
  {
    var row := Step(db, e).rows[id];
    match e.action
    case OnRow(i, op) =>
      OnRowCreates(db, id, op, e.now);
      assert row == RowAfter(FreshRow(DesiredFor(db.targets[id]), e.now), Some(op), e.now);
    case Upsert(_, _, _, _) =>
      var desired := if id in db.targets then DesiredFor(db.targets[id]) else Stopped;
      assert row == RowAfter(FreshRow(desired, e.now), None, e.now);
    case UpdateStatus(_, _, _) => SwitchCreates(db, e, id);
    case RestartMonitoring(_, _) => SwitchCreates(db, e, id);
    case PauseAll =>
      assert row == RowAfter(FreshRow(Stopped, e.now), None, e.now);
    case _ =>
      assert false;
  }
}
