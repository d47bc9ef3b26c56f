/** Queue admission, claims, heartbeats and page reloads: each method performs exactly its protocol step. */
module RuntimeOwnership {
  import opened Options
  import opened RuntimeRows
  import opened RuntimeProtocol
  import opened RuntimeAccess

  datatype QueueAdmission = QueueAdmission(committed: bool, state: RuntimeRow)

  /** A claim leaves the claimed row, or the same row with the refusal noted. */
  lemma ClaimedOrNoted(db: Db, id: Id, workerId: string, pageId: string, now: Time)
    requires id in db.targets
    ensures
      var row, claim := Ensured(db, id, now), Claim(workerId, pageId);
      && Answer(db, id, claim, now) == Ok(TryMarkRunning(row, workerId, pageId, now))
      && OnRowStep(db, id, claim, now) ==
         db.(rows := db.rows[id := TryMarkRunning(row, workerId, pageId, now).GetOr(
                                     GuardSkipRecorded(row, ClaimRefusal(row), now))])
  {
  }

  /** target_runtime_ownership.py */
  class TargetRuntimeOwnershipService {
    const access: TargetRuntimeAccess

    constructor (access: TargetRuntimeAccess)
      ensures this.access == access
    {
      this.access := access;
    }

    method TryMarkTargetQueued(id: Id, reason: string, now: Time) returns (r: Result<QueueAdmission, ServiceError>)
      modifies access
      ensures access.State() == OnRowStep(old(access.State()), id, MarkQueued(reason), now)
      ensures r == if id !in access.targets then Err(TargetNotFound(id))
                   else Ok(QueueAdmission(Answer(old(access.State()), id, MarkQueued(reason), now).value.Some?,
                                          access.rows[id]))
    {
      if id !in access.targets { return Err(TargetNotFound(id)); }
      var _ := access.EnsureRuntimeState(id, now);
      var state := access.Update(id, row => MarkQueuedIfIdle(row, reason, now));
      if state.None? {
        var current := access.EnsureRuntimeState(id, now);
        return Ok(QueueAdmission(false, current));
      }
      return Ok(QueueAdmission(true, state.value));
    }

    method MarkTargetRunning(id: Id, workerId: string, pageId: string, now: Time)
      returns (r: Result<RuntimeRow, ServiceError>)
      modifies access
      ensures access.State() == OnRowStep(old(access.State()), id, MarkRunning(workerId, pageId), now)
      ensures r == RowAnswer(old(access.State()), id, MarkRunning(workerId, pageId), now)
    {
      if id !in access.targets { return Err(TargetNotFound(id)); }
      var existing := access.EnsureRuntimeState(id, now);
      var state := existing.(status := Running, lastStartedAt := Some(now), lastHeartbeatAt := Some(now),
      lastError := NoMessage, lastSkipReason := NoMessage, activeWorkerId := workerId, activePageId := pageId,
      updatedAt := now);
      access.Save(id, state);
      return Ok(state);
    }

    method TryClaimTargetRunning(id: Id, workerId: string, pageId: string, now: Time)
      returns (r: Result<Option<RuntimeRow>, ServiceError>)
      modifies access
      ensures access.State() == OnRowStep(old(access.State()), id, Claim(workerId, pageId), now)
      ensures r == Answer(old(access.State()), id, Claim(workerId, pageId), now)
    {
      if id !in access.targets { return Err(TargetNotFound(id)); }
      ClaimedOrNoted(access.State(), id, workerId, pageId, now);
      var _ := access.EnsureRuntimeState(id, now);
      var claimed := access.Update(id, row => TryMarkRunning(row, workerId, pageId, now));
      if claimed.Some? {
        return Ok(claimed);
      }
      NoteRefusedClaim(id, now);
      return Ok(None);
    }

    /** The guard-skip note of a refused claim. */
    method NoteRefusedClaim(id: Id, now: Time)
      requires id in access.targets && id in access.rows
      modifies access`rows
      ensures access.rows ==
              old(access.rows)[id := GuardSkipRecorded(old(access.rows)[id], ClaimRefusal(old(access.rows)[id]), now)]
    {
      var existing := access.EnsureRuntimeState(id, now);
      var message := ClaimConflict;
      if existing.status == Running {
        message := AlreadyRunning(existing.activeWorkerId);
      } else if existing.desired != Active {
        message := NotActive(existing.desired);
      }
      var _ := access.Update(id, row => Some(GuardSkipRecorded(row, message, now)));
    }

    method MarkTargetPageReloaded(id: Id, pageId: string, reloadedAt: Option<Time>, now: Time)
      returns (r: Result<RuntimeRow, ServiceError>)
      modifies access
      ensures access.State() == OnRowStep(old(access.State()), id, PageReloaded(pageId, reloadedAt), now)
      ensures r == RowAnswer(old(access.State()), id, PageReloaded(pageId, reloadedAt), now)
    {
      if id !in access.targets { return Err(TargetNotFound(id)); }
      var existing := access.EnsureRuntimeState(id, now);
      var state := existing.(activePageId := if pageId != "" then pageId else existing.activePageId,
      lastPageReloadedAt := Some(reloadedAt.GetOr(now)), lastHeartbeatAt := Some(now), updatedAt := now);
      ReloadedRow(existing, pageId, reloadedAt, now);
      access.Save(id, state);
      return Ok(state);
    }

    method GuardedMarkTargetPageReloaded(id: Id, owner: Owner, reloadedAt: Option<Time>, now: Time)
      returns (r: Result<Option<RuntimeRow>, ServiceError>)
      modifies access
      ensures access.State() == OnRowStep(old(access.State()), id, GuardedPageReloaded(owner, reloadedAt), now)
      ensures r == Answer(old(access.State()), id, GuardedPageReloaded(owner, reloadedAt), now)
    {
      if id !in access.targets { return Err(TargetNotFound(id)); }
      var state := access.Update(id, row => PageReloadedIfOwner(row, owner, reloadedAt.GetOr(now), now));
      return Ok(state);
    }

    method RecordTargetHeartbeat(id: Id, workerId: string, pageId: string, now: Time)
      returns (r: Result<RuntimeRow, ServiceError>)
      modifies access
      ensures access.State() == OnRowStep(old(access.State()), id, Heartbeat(workerId, pageId), now)
      ensures r == RowAnswer(old(access.State()), id, Heartbeat(workerId, pageId), now)
    {
      if id !in access.targets { return Err(TargetNotFound(id)); }
      var existing := access.EnsureRuntimeState(id, now);
      if existing.status != Running {
        return Ok(existing);
      }
      var state := access.Update(id, row => HeartbeatIfRunning(row, workerId, pageId, now));
      var current := access.EnsureRuntimeState(id, now);
      return Ok(current);
    }

    method GuardedRecordTargetHeartbeat(id: Id, owner: Owner, now: Time)
      returns (r: Result<Option<RuntimeRow>, ServiceError>)
      modifies access
      ensures access.State() == OnRowStep(old(access.State()), id, GuardedHeartbeat(owner), now)
      ensures r == Answer(old(access.State()), id, GuardedHeartbeat(owner), now)
    {
      if id !in access.targets { return Err(TargetNotFound(id)); }
      var state := access.Update(id, row => HeartbeatIfOwner(row, owner, now));
      return Ok(state);
    }

    method RecordScanGuardSkip(id: Id, message: Message, now: Time) returns (r: Result<RuntimeRow, ServiceError>)
      modifies access
      ensures access.State() == OnRowStep(old(access.State()), id, RecordGuardSkip(message), now)
      ensures r == RowAnswer(old(access.State()), id, RecordGuardSkip(message), now)
    {
      if id !in access.targets { return Err(TargetNotFound(id)); }
      var _ := access.EnsureRuntimeState(id, now);
      var state := access.Update(id, row => Some(GuardSkipRecorded(row, message, now)));
      return Ok(state.value);
    }
  }

  lemma ReloadedRow(row: RuntimeRow, pageId: string, reloadedAt: Option<Time>, now: Time)
    ensures RowStep(row, PageReloaded(pageId, reloadedAt), now) ==
            row.(activePageId := if pageId != "" then pageId else row.activePageId,
            lastPageReloadedAt := Some(reloadedAt.GetOr(now)), lastHeartbeatAt := Some(now), updatedAt := now)
  {
  }
}
