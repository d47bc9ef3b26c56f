/** Scan requests and the displayed due time: each method performs exactly its protocol step. */
module RuntimeRequests {
  import opened Options
  import opened RuntimeRows
  import opened RuntimeProtocol
  import opened RuntimeAccess

  /** target_runtime_requests.py */
  class TargetRuntimeRequestService {
    const access: TargetRuntimeAccess

    constructor (access: TargetRuntimeAccess)
      ensures this.access == access
    {
      this.access := access;
    }

    method SetTargetDisplayNextDueAt(id: Id, dueAt: Option<Time>, now: Time) returns (r: Option<RuntimeRow>)
      modifies access
      ensures access.State() == OnRowStep(old(access.State()), id, SetDisplayDue(dueAt), now)
      ensures r == if id in access.targets then Some(access.rows[id]) else None
    {
      if id !in access.targets { return None; }
      var existing := access.EnsureRuntimeState(id, now);
      DueRow(existing, dueAt, now);
      if existing.displayNextDueAt == dueAt {
        return Some(existing);
      }
      r := access.Update(id, row => Some(DisplayDueSet(row, dueAt, now)));
    }

    method RequestTargetScan(id: Id, now: Time) returns (r: Result<RuntimeRow, ServiceError>)
      modifies access
      ensures access.State() == OnRowStep(old(access.State()), id, RequestScan, now)
      ensures r == RowAnswer(old(access.State()), id, RequestScan, now)
    {
      if id !in access.targets { return Err(TargetNotFound(id)); }
      var _ := access.EnsureRuntimeState(id, now);
      var state := access.Update(id, row => Some(ScanRequestSet(row, Some(now), now)));
      return Ok(state.value);
    }

    method ClearTargetScanRequest(id: Id, now: Time) returns (r: Result<RuntimeRow, ServiceError>)
      modifies access
      ensures access.State() == OnRowStep(old(access.State()), id, ClearRequest, now)
      ensures r == RowAnswer(old(access.State()), id, ClearRequest, now)
    {
      if id !in access.targets { return Err(TargetNotFound(id)); }
      var _ := access.EnsureRuntimeState(id, now);
      var state := access.Update(id, row => Some(ScanRequestSet(row, None, now)));
      return Ok(state.value);
    }

    method ClearTargetScanRequestIfNotNewer(id: Id, consumedAt: Option<Time>, now: Time)
      returns (r: Result<RuntimeRow, ServiceError>)
      modifies access
      ensures
        var op := if consumedAt.None? then ClearRequest else ClearRequestIfNotNewer(consumedAt.value);
        && access.State() == OnRowStep(old(access.State()), id, op, now)
        && r == RowAnswer(old(access.State()), id, op, now)
    {
      if consumedAt.None? {
        r := ClearTargetScanRequest(id, now);
      } else {
        r := ClearConsumedRequest(id, consumedAt.value, now);
      }
    }

    /** The conditional clear; the answer is the row as stored afterwards. */
    method ClearConsumedRequest(id: Id, consumedAt: Time, now: Time) returns (r: Result<RuntimeRow, ServiceError>)
      modifies access
      ensures access.State() == OnRowStep(old(access.State()), id, ClearRequestIfNotNewer(consumedAt), now)
      ensures r == RowAnswer(old(access.State()), id, ClearRequestIfNotNewer(consumedAt), now)
    {
      if id !in access.targets { return Err(TargetNotFound(id)); }
      var existing := access.EnsureRuntimeState(id, now);
      var _ := access.Update(id, row => ClearScanRequestIfNotNewer(row, consumedAt, now));
      var current := access.EnsureRuntimeState(id, now);
      ClearedRow(existing, consumedAt, now);
      return Ok(current);
    }
  }

  lemma DueRow(row: RuntimeRow, dueAt: Option<Time>, now: Time)
    ensures RowStep(row, SetDisplayDue(dueAt), now) ==
            if row.displayNextDueAt == dueAt then row else DisplayDueSet(row, dueAt, now)
  {
  }

  lemma ClearedRow(row: RuntimeRow, consumedAt: Time, now: Time)
    ensures RowStep(row, ClearRequestIfNotNewer(consumedAt), now) ==
            ClearScanRequestIfNotNewer(row, consumedAt, now).GetOr(row)
  {
  }
}
