/** Stop, start and retry writes: each method performs exactly its protocol step. */
module RuntimeLifecycle {
  import opened Options
  import opened RuntimeRows
  import opened RuntimeProtocol
  import opened RuntimeAccess

  /** target_runtime_lifecycle.py */
  class TargetRuntimeLifecycleService {
    const access: TargetRuntimeAccess

    constructor (access: TargetRuntimeAccess)
      ensures this.access == access
    {
      this.access := access;
    }

    method ResetTargetDesiredState(id: Id, desired: DesiredState, now: Time)
      returns (r: Result<RuntimeRow, ServiceError>)
      modifies access
      ensures access.State() == OnRowStep(old(access.State()), id, ResetTo(desired), now)
      ensures r == RowAnswer(old(access.State()), id, ResetTo(desired), now)
    {
      if id !in access.targets { return Err(TargetNotFound(id)); }
      var state := FreshRow(desired, now);
      access.Save(id, state);
      return Ok(state);
    }

    method RestartTargetRuntime(id: Id, now: Time) returns (r: Result<RuntimeRow, ServiceError>)
      modifies access
      ensures access.State() == OnRowStep(old(access.State()), id, RestartRuntime, now)
      ensures r == RowAnswer(old(access.State()), id, RestartRuntime, now)
    {
      if id !in access.targets { return Err(TargetNotFound(id)); }
      var existing := access.EnsureRuntimeState(id, now);
      var state := existing.(desired := Active, status := Idle, scanRequestedAt := Some(now), lastEnqueuedAt := None,
      lastStartedAt := None, lastFinishedAt := None, lastHeartbeatAt := None, lastError := NoMessage,
      lastSkipReason := NoMessage, enqueueReason := "", activeWorkerId := "", activePageId := "",
      displayNextDueAt := None, failureReason := "", failureCount := 0, skipReason := "", skipCount := 0,
      updatedAt := now);
      access.Save(id, state);
      return Ok(state);
    }

    method ForceRequestTargetRetryAfterRuntimeRestart(id: Id, now: Time)
      returns (r: Result<RuntimeRow, ServiceError>)
      modifies access
      ensures access.State() == OnRowStep(old(access.State()), id, RetryAfterRestart, now)
      ensures r == RowAnswer(old(access.State()), id, RetryAfterRestart, now)
    {
      if id !in access.targets { return Err(TargetNotFound(id)); }
      var existing := access.EnsureRuntimeState(id, now);
      var state := RetryRequestedState(existing, now);
      access.Save(id, state);
      return Ok(state);
    }

    method RecordGuardedTargetRetryAfterSqliteLock(id: Id, owner: Owner, now: Time)
      returns (r: Result<Option<RuntimeRow>, ServiceError>)
      modifies access
      ensures access.State() == OnRowStep(old(access.State()), id, GuardedRetryAfterLock(owner), now)
      ensures r == Answer(old(access.State()), id, GuardedRetryAfterLock(owner), now)
    {
      if id !in access.targets { return Err(TargetNotFound(id)); }
      if !access.targets[id].IsActive() { return Ok(None); }
      var existing := access.EnsureRuntimeState(id, now);
      var next := RetryRequestedState(existing, now);
      var state := access.Update(id, row => SaveIfRunningOwner(row, next, owner));
      return Ok(state);
    }

    method RecordNonRunningTargetRetryAfterSqliteLock(id: Id, now: Time)
      returns (r: Result<Option<RuntimeRow>, ServiceError>)
      modifies access
      ensures access.State() == OnRowStep(old(access.State()), id, RetryAfterLockIfNotRunning, now)
      ensures r == Answer(old(access.State()), id, RetryAfterLockIfNotRunning, now)
    {
      if id !in access.targets { return Err(TargetNotFound(id)); }
      if !access.targets[id].IsActive() { return Ok(None); }
      var existing := access.EnsureRuntimeState(id, now);
      var next := RetryRequestedState(existing, now);
      var state := access.Update(id, row => SaveIfNotRunning(row, next));
      return Ok(state);
    }
  }
}
