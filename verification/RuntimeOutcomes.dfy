/** Success, skip and failure write-backs: each method performs exactly its protocol step. */
module RuntimeOutcomes {
  import opened Options
  import opened RuntimeRows
  import opened RuntimeProtocol
  import opened RuntimeAccess
  import opened ScanFailurePolicy
  import Strings = Text

  /** target_runtime_outcomes.py */
  class TargetRuntimeOutcomeService {
    const access: TargetRuntimeAccess

    constructor (access: TargetRuntimeAccess)
      ensures this.access == access
    {
      this.access := access;
    }

    method MarkTargetIdle(id: Id, now: Time) returns (r: Result<RuntimeRow, ServiceError>)
      modifies access
      ensures access.State() == OnRowStep(old(access.State()), id, MarkIdle, now)
      ensures r == RowAnswer(old(access.State()), id, MarkIdle, now)
    {
      if id !in access.targets { return Err(TargetNotFound(id)); }
      var existing := access.EnsureRuntimeState(id, now);
      var state := IdleState(existing, now);
      access.Save(id, state);
      return Ok(state);
    }

    method MarkTargetIdleIfNotRunning(id: Id, now: Time) returns (r: Result<Option<RuntimeRow>, ServiceError>)
      modifies access
      ensures access.State() == OnRowStep(old(access.State()), id, MarkIdleIfNotRunning, now)
      ensures r == Answer(old(access.State()), id, MarkIdleIfNotRunning, now)
    {
      if id !in access.targets { return Err(TargetNotFound(id)); }
      var existing := access.EnsureRuntimeState(id, now);
      var next := IdleState(existing, now);
      var state := access.Update(id, row => SaveIfNotRunning(row, next));
      return Ok(state);
    }

    method GuardedMarkTargetIdle(id: Id, owner: Owner, now: Time) returns (r: Result<Option<RuntimeRow>, ServiceError>)
      modifies access
      ensures access.State() == OnRowStep(old(access.State()), id, GuardedIdle(owner), now)
      ensures r == Answer(old(access.State()), id, GuardedIdle(owner), now)
    {
      if id !in access.targets { return Err(TargetNotFound(id)); }
      var existing := access.EnsureRuntimeState(id, now);
      var next := IdleState(existing, now);
      var state := access.Update(id, row => SaveIfRunningOwner(row, next, owner));
      return Ok(state);
    }

    method MarkSchedulerCancellationIdleIfQueued(id: Id, now: Time)
      returns (r: Result<Option<RuntimeRow>, ServiceError>)
      modifies access
      ensures access.State() == OnRowStep(old(access.State()), id, CancelQueued, now)
      ensures r == Answer(old(access.State()), id, CancelQueued, now)
    {
      if id !in access.targets { return Err(TargetNotFound(id)); }
      var _ := access.EnsureRuntimeState(id, now);
      var state := access.Update(id, row => CancelIfQueued(row, now));
      return Ok(state);
    }

    method GuardedMarkSchedulerCancellationIdle(id: Id, owner: Owner, now: Time)
      returns (r: Result<Option<RuntimeRow>, ServiceError>)
      modifies access
      ensures access.State() == OnRowStep(old(access.State()), id, GuardedCancel(owner), now)
      ensures r == Answer(old(access.State()), id, GuardedCancel(owner), now)
    {
      if id !in access.targets { return Err(TargetNotFound(id)); }
      var _ := access.EnsureRuntimeState(id, now);
      var state := access.Update(id, row => CancelIfOwner(row, owner, now));
      return Ok(state);
    }

    /** The skip streak grows by one for the same reason and restarts for another; it escalates from its limit on. */
    method DecideScanSkip(id: Id, reason: string, skipLimit: int, now: Time)
      returns (r: Result<SkipDecision, ServiceError>)
      modifies access
      ensures access.targets == old(access.targets)
      ensures id !in access.targets ==> r == Err(TargetNotFound(id)) && access.rows == old(access.rows)
      ensures id in access.targets ==>
                var row := Ensured(old(access.State()), id, now);
                && access.rows == old(access.rows)[id := row]
                && r.Ok?
                && r.value.reason == Strings.Strip(reason)
                && r.value.streak == NextStreak(r.value.reason, row.skipReason, row.skipCount)
                && r.value.limit >= 1
                && (r.value.Escalate() <==> r.value.streak >= skipLimit)
    {
      if id !in access.targets { return Err(TargetNotFound(id)); }
      var existing := access.EnsureRuntimeState(id, now);
      var normalized := Strings.Strip(reason);
      var previousCount := if existing.skipReason == normalized then existing.skipCount else 0;
      return Ok(SkipDecision(normalized, (if previousCount > 0 then previousCount else 0) + 1,
                             if skipLimit > 1 then skipLimit else 1));
    }

    method ApplyScanSkipDecision(id: Id, decision: SkipDecision, now: Time)
      returns (r: Result<RuntimeRow, ServiceError>)
      modifies access
      ensures access.State() == OnRowStep(old(access.State()), id, ApplySkip(decision), now)
      ensures r == RowAnswer(old(access.State()), id, ApplySkip(decision), now)
    {
      if id !in access.targets { return Err(TargetNotFound(id)); }
      var existing := access.EnsureRuntimeState(id, now);
      var state := ScanSkippedState(existing, decision, now);
      access.Save(id, state);
      return Ok(state);
    }

    method GuardedApplyScanSkipDecision(id: Id, decision: SkipDecision, owner: Owner, now: Time)
      returns (r: Result<Option<RuntimeRow>, ServiceError>)
      modifies access
      ensures access.State() == OnRowStep(old(access.State()), id, GuardedSkip(decision, owner), now)
      ensures r == Answer(old(access.State()), id, GuardedSkip(decision, owner), now)
    {
      if id !in access.targets { return Err(TargetNotFound(id)); }
      var existing := access.EnsureRuntimeState(id, now);
      var next := ScanSkippedState(existing, decision, now);
      var state := access.Update(id, row => SaveIfRunningOwner(row, next, owner));
      return Ok(state);
    }

    method DecideScanFailure(id: Id, reason: string, source: Source, now: Time)
      returns (r: Result<Decision, ServiceError>)
      modifies access
      ensures access.targets == old(access.targets)
      ensures id !in access.targets ==> r == Err(TargetNotFound(id)) && access.rows == old(access.rows)
      ensures id in access.targets ==>
                && access.rows == old(access.rows)[id := Ensured(old(access.State()), id, now)]
                && r == Ok(DecideFailureOn(access.rows[id], reason, source))
    {
      if id !in access.targets { return Err(TargetNotFound(id)); }
      var existing := access.EnsureRuntimeState(id, now);
      return Ok(Decide(reason, source, existing.failureReason, existing.failureCount));
    }

    method ApplyScanFailureDecision(id: Id, decision: Decision, error: Message, now: Time)
      returns (r: Result<RuntimeRow, ServiceError>)
      modifies access
      ensures access.State() == OnRowStep(old(access.State()), id, ApplyFailure(decision, error), now)
      ensures r == RowAnswer(old(access.State()), id, ApplyFailure(decision, error), now)
    {
      if id !in access.targets { return Err(TargetNotFound(id)); }
      var existing := access.EnsureRuntimeState(id, now);
      var state := FailureDecisionState(existing, decision, error, now);
      access.Save(id, state);
      return Ok(state);
    }

    method GuardedApplyScanFailureDecision(id: Id, decision: Decision, error: Message, owner: Owner, now: Time)
      returns (r: Result<Option<RuntimeRow>, ServiceError>)
      modifies access
      ensures access.State() == OnRowStep(old(access.State()), id, GuardedFailure(decision, error, owner), now)
      ensures r == Answer(old(access.State()), id, GuardedFailure(decision, error, owner), now)
    {
      if id !in access.targets { return Err(TargetNotFound(id)); }
      var existing := access.EnsureRuntimeState(id, now);
      var next := FailureDecisionState(existing, decision, error, now);
      var state := access.Update(id, row => SaveIfRunningOwner(row, next, owner));
      return Ok(state);
    }
  }
}
