/** What each event does to the two tables, and what it leaves alone. */
module EventEffects {
  import opened Options
  import opened RuntimeRows
  import opened RuntimeProtocol
  import opened RowEffects

  /** The one target an event is about; None for the events about all targets. */
  function Addressee(a: Action): Option<Id> {
    match a
    case OnRow(id, _) => Some(id)
    case Upsert(id, _, _, _) => Some(id)
    case EditDetails(id, _) => Some(id)
    case UpdateStatus(id, _, _) => Some(id)
    case RestartMonitoring(id, _) => Some(id)
    case Delete(id) => Some(id)
    case PauseAll => None
    case SweepRunning(_) => None
    case SweepQueued(_) => None
  }

  predicate SameTarget(a: Db, b: Db, id: Id) {
    && (id in a.targets <==> id in b.targets) && (id in a.targets ==> a.targets[id] == b.targets[id])
  }

  predicate SameRow(a: Db, b: Db, id: Id) {
    && (id in a.rows <==> id in b.rows) && (id in a.rows ==> a.rows[id] == b.rows[id])
  }

  /** Main result: an event about one target leaves every other target and its row alone. */
  lemma OthersAreLeftAlone(db: Db, e: Event, id: Id)
    requires Addressee(e.action).Some? && Addressee(e.action).value != id
    ensures SameTarget(db, Step(db, e), id) && SameRow(db, Step(db, e), id)
  {
  }

  /** Runtime calls and sweeps never touch the targets table. */
  lemma RuntimeKeepsTargets(db: Db, e: Event)
    requires e.action.OnRow? || e.action.SweepRunning? || e.action.SweepQueued?
    ensures Step(db, e).targets == db.targets
  {
  }

  /** Wanted, idle, and nothing recorded. */
  predicate Untouched(row: RuntimeRow, desired: DesiredState, now: Time) {
    && row.desired == desired && row.status == Idle && row.scanRequestedAt.None? && row.lastEnqueuedAt.None?
    && row.lastStartedAt.None? && row.lastFinishedAt.None? && row.lastHeartbeatAt.None?
    && row.lastPageReloadedAt.None? && row.displayNextDueAt.None?
    && row.lastError == NoMessage && row.lastSkipReason == NoMessage && row.enqueueReason == ""
    && row.activeWorkerId == "" && row.activePageId == "" && row.scanGuardCount == 0
    && row.failureReason == "" && row.failureCount == 0 && row.skipReason == "" && row.skipCount == 0
    && row.updatedAt == now
  }

  /** Main result: a newly registered target is enabled but paused, and its row is stopped and untouched, so it cannot
      be enqueued or claimed before somebody starts it. */
  lemma RegistrationStartsPaused(db: Db, id: Id, kind: TargetKind, scopeId: string, details: string, now: Time)
    requires id !in db.targets && id !in db.rows
    ensures
      var next := Step(db, Event(Upsert(id, kind, scopeId, details), now));
      && id in next.targets && id in next.rows
      && next.targets[id] == TargetRow(kind, scopeId, details, true, true, now, now)
      && Untouched(next.rows[id], Stopped, now)
      && forall op: RowOp, at :: op.MarkQueued? || op.Claim? ==> Attempt(next.rows[id], op, at).None?
  {
    var row := Step(db, Event(Upsert(id, kind, scopeId, details), now)).rows[id];
    forall op: RowOp, at | op.MarkQueued? || op.Claim? ensures Attempt(row, op, at).None? {
      CommitsExactly(row, op, at);
    }
  }

  /** Main result: registering a known target again changes its details and nothing else about it; its switches and
      its row stay. */
  lemma RegistrationKeepsSwitches(db: Db, id: Id, kind: TargetKind, scopeId: string, details: string, now: Time)
    requires id in db.targets
    ensures
      var next := Step(db, Event(Upsert(id, kind, scopeId, details), now));
      && id in next.targets && id in next.rows
      && next.targets[id] == db.targets[id].(details := details, updatedAt := now)
      && (id in db.rows ==> next.rows[id] == db.rows[id])
      && (id !in db.rows ==>
            Untouched(next.rows[id], if db.targets[id].enabled && !db.targets[id].paused then Active else Stopped, now))
  {
  }

  /** Main result: switching a target writes the switches and replaces the row, wanted exactly when enabled and not
      paused. */
  lemma SwitchingResets(db: Db, id: Id, enabled: bool, paused: bool, now: Time)
    requires id in db.targets
    ensures
      var next := Step(db, Event(UpdateStatus(id, enabled, paused), now));
      && id in next.targets && id in next.rows
      && next.targets[id] == db.targets[id].(enabled := enabled, paused := paused, updatedAt := now)
      && Untouched(next.rows[id], if enabled && !paused then Active else Stopped, now)
  {
  }

  /** Main result: restarting a target enables and unpauses it, and leaves an idle wanted row with a scan asked for
      now, without owner and streaks; guard count and last reload are kept. */
  lemma RestartingAsks(db: Db, id: Id, details: string, now: Time)
    requires id in db.targets
    ensures
      var next := Step(db, Event(RestartMonitoring(id, details), now));
      && id in next.targets && id in next.rows
      && next.targets[id] == db.targets[id].(details := details, enabled := true, paused := false, updatedAt := now)
      && var row := next.rows[id];
         && row.scanRequestedAt == Some(now)
         && Untouched(row.(scanRequestedAt := None, scanGuardCount := 0, lastPageReloadedAt := None), Active, now)
         && (id in db.rows ==> row.scanGuardCount == db.rows[id].scanGuardCount
                               && row.lastPageReloadedAt == db.rows[id].lastPageReloadedAt)
  {
  }

  /** Main result: pausing all pauses exactly the active targets and resets exactly their rows. */
  lemma PauseAllPausesTheActive(db: Db, now: Time, id: Id)
    requires id in db.targets
    ensures
      var next := Step(db, Event(PauseAll, now));
      && id in next.targets
      && if db.targets[id].enabled && !db.targets[id].paused
         then next.targets[id] == db.targets[id].(paused := true, updatedAt := now)
              && id in next.rows && Untouched(next.rows[id], Stopped, now)
         else next.targets[id] == db.targets[id] && SameRow(db, next, id)
  {
  }

  /** Renaming touches the details only; deleting removes both rows. */
  lemma DetailsAndDeletion(db: Db, id: Id, details: string, now: Time)
    ensures
      var edited := Step(db, Event(EditDetails(id, details), now));
      && edited.rows == db.rows
      && (id in db.targets ==> edited.targets[id] == db.targets[id].(details := details, updatedAt := now))
      && (id !in db.targets ==> edited == db)
    ensures
      var gone := Step(db, Event(Delete(id), now));
      id !in gone.targets && id !in gone.rows
  {
  }

  /** Calls that do nothing for a target that is not active, and calls that need a row to be there. */
  predicate NeedsActive(op: RowOp) {
    op.GuardedRetryAfterLock? || op.RetryAfterLockIfNotRunning?
  }

  predicate NeedsRow(op: RowOp) {
    op.GuardedPageReloaded? || op.GuardedHeartbeat? || op.RecoverStaleRunning? || op.RecoverStaleQueued?
  }

  /** Main result: a call on one target acts on its row, or on a fresh row wanted as the switches say when there is
      none; it does nothing for an unknown target, for an inactive one if it needs an active one, or without a row if
      it needs one. */
  lemma CallActsOnItsRow(db: Db, id: Id, op: RowOp, now: Time)
    ensures
      var next := Step(db, Event(OnRow(id, op), now));
      if id !in db.targets || (NeedsActive(op) && !(db.targets[id].enabled && !db.targets[id].paused))
         || (NeedsRow(op) && id !in db.rows)
      then next == db
      else
        && id in next.rows
        && (id in db.rows ==> next.rows[id] == RowStep(db.rows[id], op, now))
        && (id !in db.rows ==>
              next.rows[id] == RowStep(FreshRow(if db.targets[id].enabled && !db.targets[id].paused then Active
                                                else Stopped, now), op, now))
  {
  }

  /** A fresh row is untouched, and only such a row is. */
  lemma FreshIsUntouched(row: RuntimeRow, desired: DesiredState, now: Time)
    ensures Untouched(row, desired, now) <==> row == FreshRow(desired, now)
  {
  }
}
