/** The stale-recovery sweeps: each method performs exactly its protocol step on the whole table.
    Candidates are visited in any order. */
module RuntimeRecovery {
  import opened Options
  import opened RuntimeRows
  import opened RuntimeProtocol
  import opened RuntimeAccess
  import opened ScanFailurePolicy
  import opened RecoverySweep
  import opened RowEffects

  datatype StaleRunningRecovery = StaleRunningRecovery(
    state: RuntimeRow, previousOwner: Owner, previousHeartbeatAt: Time, decision: Option<Decision>,
    staleAfter: Time, recordFailure: bool)

  /** The recovery record tells the truth about the row before and after. */
  predicate RecoveryRecord(rec: StaleRunningRecovery, before: RuntimeRow, after: RuntimeRow) {
    && rec.state == after
    && OwnedBy(before, rec.previousOwner)
    && rec.previousHeartbeatAt == before.lastHeartbeatAt.GetOr(before.updatedAt)
    && rec.recordFailure == (before.desired == Active) == rec.decision.Some?
    && (rec.decision.Some? ==> rec.decision.value == StaleDecision(before))
  }

  /** max(stale_after_seconds, 1) */
  function StaleWindow(staleAfter: Time): Time {
    if staleAfter > SECOND then staleAfter else SECOND
  }

  type Rows = map<Id, RuntimeRow>

  /** Halfway through the running sweep: the ids still to do are stale rows as they were, every other row
      carries the sweep's result, and the records are those of the rows done. */
  ghost predicate RunningProgress(before: Rows, rows: Rows, todo: set<Id>, recovered: map<Id, StaleRunningRecovery>,
                                  window: Time, now: Time)
  {
    && rows.Keys == before.Keys
    && todo <= before.Keys
    && (forall id :: id in todo ==> rows[id] == before[id] && RunningStale(before[id], now - window))
    && (forall id :: id in before && id !in todo ==> rows[id] == SweptRunning(before[id], window, now))
    && (forall id :: id in recovered ==>
                       && id in before && id !in todo && Recoverable(before[id], window, now)
                       && RecoveryRecord(recovered[id], before[id], rows[id]))
    && (forall id :: id in before && id !in todo && Recoverable(before[id], window, now) ==> id in recovered)
  }

  ghost predicate QueuedProgress(before: Rows, rows: Rows, todo: set<Id>, recovered: Rows, window: Time, now: Time) {
    && rows.Keys == before.Keys
    && todo <= before.Keys
    && (forall id :: id in todo ==> rows[id] == before[id] && QueuedStale(before[id], now - window))
    && (forall id :: id in before && id !in todo ==> rows[id] == SweptQueued(before[id], window, now))
    && (forall id :: id in recovered ==>
                       id in before && id !in todo && QueueRecoverable(before[id], window, now)
                       && recovered[id] == rows[id])
    && (forall id :: id in before && id !in todo && QueueRecoverable(before[id], window, now) ==> id in recovered)
  }

  lemma RunningStart(before: Rows, todo: set<Id>, window: Time, now: Time)
    requires todo == set id | id in before && RunningStale(before[id], now - window)
    ensures RunningProgress(before, before, todo, map[], window, now)
  {
    forall id | id in before && id !in todo ensures before[id] == SweptRunning(before[id], window, now) {
      SweepOnRow(before[id], window, now);
    }
  }

  lemma QueuedStart(before: Rows, todo: set<Id>, window: Time, now: Time)
    requires todo == set id | id in before && QueuedStale(before[id], now - window)
    ensures QueuedProgress(before, before, todo, map[], window, now)
  {
    forall id | id in before && id !in todo ensures before[id] == SweptQueued(before[id], window, now) {
      QueuedSweepOnRow(before[id], window, now);
    }
  }

  /** Running with a recorded start, and not seen within the window, which is never under a second. */
  predicate Silent(row: RuntimeRow, staleAfter: Time, now: Time) {
    && row.status == Running && row.lastStartedAt.Some?
    && LastSeen(row) <= now - staleAfter && LastSeen(row) <= now - 1_000_000
  }

  /** Queued and wanted, and not enqueued within the window. */
  predicate Forgotten(row: RuntimeRow, staleAfter: Time, now: Time) {
    && row.status == Queued && row.desired == Active
    && QueuedSince(row) <= now - staleAfter && QueuedSince(row) <= now - 1_000_000
  }

  lemma RecoveredAreSilent(before: Rows, rows: Rows, recovered: map<Id, StaleRunningRecovery>, staleAfter: Time,
                           now: Time)
    requires RunningProgress(before, rows, {}, recovered, StaleWindow(staleAfter), now)
    ensures forall id :: id in recovered <==> id in before && Silent(before[id], staleAfter, now)
    ensures forall id :: id in before && id !in recovered ==> rows[id] == before[id]
  {
    forall id | id in before
      ensures Recoverable(before[id], StaleWindow(staleAfter), now) <==> Silent(before[id], staleAfter, now)
    {
    }
    forall id | id in before && id !in recovered ensures rows[id] == before[id] {
      SweepOnRow(before[id], StaleWindow(staleAfter), now);
    }
  }

  lemma RecoveredAreForgotten(before: Rows, rows: Rows, recovered: Rows, staleAfter: Time, now: Time)
    requires QueuedProgress(before, rows, {}, recovered, StaleWindow(staleAfter), now)
    ensures forall id :: id in recovered <==> id in before && Forgotten(before[id], staleAfter, now)
    ensures forall id :: id in before && id !in recovered ==> rows[id] == before[id]
  {
    forall id | id in before
      ensures QueueRecoverable(before[id], StaleWindow(staleAfter), now) <==> Forgotten(before[id], staleAfter, now)
    {
    }
    forall id | id in before && id !in recovered ensures rows[id] == before[id] {
      QueuedSweepOnRow(before[id], StaleWindow(staleAfter), now);
    }
  }

  lemma RunningDone(db: Db, rows: Rows, recovered: map<Id, StaleRunningRecovery>, window: Time, now: Time)
    requires RunningProgress(db.rows, rows, {}, recovered, window, now)
    ensures Db(db.targets, rows) == Step(db, Event(SweepRunning(window), now))
  {
  }

  lemma QueuedDone(db: Db, rows: Rows, recovered: Rows, window: Time, now: Time)
    requires QueuedProgress(db.rows, rows, {}, recovered, window, now)
    ensures Db(db.targets, rows) == Step(db, Event(SweepQueued(window), now))
  {
  }

  /** Saving the state built for a stale row is recovering it. */
  lemma SavedIsRecovered(row: RuntimeRow, next: RuntimeRow, window: Time, now: Time)
    requires row.lastStartedAt.Some?
    requires next == if row.desired != Active then StaleRunningInactiveRecoveredState(row, window, now)
                     else FailureDecisionState(row, StaleDecision(row),
                                               HeartbeatExpired(STALE_RUNNING, window / SECOND), now)
    ensures
      var owner := Owner(row.activeWorkerId, row.lastStartedAt.value, row.activePageId);
      SaveStaleRunningIfUnchanged(row, next, owner, now - window) == RecoveredRunning(row, window, now)
  {
  }

  /** target_runtime_recovery.py */
  class TargetRuntimeRecoveryService {
    const access: TargetRuntimeAccess

    constructor (access: TargetRuntimeAccess)
      ensures this.access == access
    {
      this.access := access;
    }

    /** The body of the running loop for one candidate. */
    method RecoverRunning(id: Id, window: Time, now: Time) returns (rec: Option<StaleRunningRecovery>)
      requires id in access.rows && RunningStale(access.rows[id], now - window)
      modifies access`rows
      ensures access.rows == old(access.rows)[id := SweptRunning(old(access.rows)[id], window, now)]
      ensures rec.Some? <==> Recoverable(old(access.rows)[id], window, now)
      ensures rec.Some? ==> RecoveryRecord(rec.value, old(access.rows)[id], access.rows[id])
    {
      var state := access.rows[id];
      if state.lastStartedAt.None? {
        return None;
      }
      var owner := Owner(state.activeWorkerId, state.lastStartedAt.value, state.activePageId);
      var decision, next := None, StaleRunningInactiveRecoveredState(state, window, now);
      if state.desired == Active {
        var d := Decide(STALE_RUNNING, RuntimeRecovery, state.failureReason, state.failureCount);
        decision := Some(d);
        next := FailureDecisionState(state, d, HeartbeatExpired(STALE_RUNNING, window / SECOND), now);
      }
      SavedIsRecovered(state, next, window, now);
      var committed := access.Update(id, row => SaveStaleRunningIfUnchanged(row, next, owner, now - window));
      if committed.None? {
        return None;
      }
      rec := Some(StaleRunningRecovery(committed.value, owner, state.lastHeartbeatAt.GetOr(state.updatedAt),
                                       decision, window, decision.Some?));
    }

    method RecoverStaleRunningTargets(staleAfter: Time, now: Time) returns (recovered: map<Id, StaleRunningRecovery>)
      requires access.Valid()
      modifies access
      ensures access.State() == Step(old(access.State()), Event(SweepRunning(StaleWindow(staleAfter)), now))
      ensures RunningProgress(old(access.rows), access.rows, {}, recovered, StaleWindow(staleAfter), now)
      ensures forall id :: id in recovered <==> id in old(access.rows) && Silent(old(access.rows)[id], staleAfter, now)
      ensures forall id :: id in old(access.rows) && id !in recovered ==> access.rows[id] == old(access.rows)[id]
    {
      var window := StaleWindow(staleAfter);
      ghost var before := access.rows;
      recovered := map[];
      var todo := set id | id in access.rows && RunningStale(access.rows[id], now - window);
      RunningStart(before, todo, window, now);
      while todo != {}
        invariant access.targets == old(access.targets)
        invariant RunningProgress(before, access.rows, todo, recovered, window, now)
        decreases todo
      {
        var id :| id in todo;
        var rec := RecoverRunning(id, window, now);
        todo := todo - {id};
        if rec.Some? {
          recovered := recovered[id := rec.value];
        }
      }
      RunningDone(old(access.State()), access.rows, recovered, window, now);
      RecoveredAreSilent(before, access.rows, recovered, staleAfter, now);
    }

    /** The body of the queued loop for one candidate. */
    method RecoverQueued(id: Id, window: Time, now: Time) returns (committed: Option<RuntimeRow>)
      requires id in access.rows && QueuedStale(access.rows[id], now - window)
      modifies access`rows
      ensures access.rows == old(access.rows)[id := SweptQueued(old(access.rows)[id], window, now)]
      ensures committed ==
              if QueueRecoverable(old(access.rows)[id], window, now) then Some(access.rows[id]) else None
    {
      var state := access.rows[id];
      var next := StaleQueuedRecoveredState(state, window, now);
      committed := access.Update(id, row =>
          SaveStaleQueuedIfUnchanged(row, next, state.lastEnqueuedAt, state.updatedAt, now - window));
    }

    method RecoverStaleQueuedTargets(staleAfter: Time, now: Time) returns (recovered: map<Id, RuntimeRow>)
      requires access.Valid()
      modifies access
      ensures access.State() == Step(old(access.State()), Event(SweepQueued(StaleWindow(staleAfter)), now))
      ensures QueuedProgress(old(access.rows), access.rows, {}, recovered, StaleWindow(staleAfter), now)
      ensures forall id ::
                id in recovered <==> id in old(access.rows) && Forgotten(old(access.rows)[id], staleAfter, now)
      ensures forall id :: id in old(access.rows) && id !in recovered ==> access.rows[id] == old(access.rows)[id]
    {
      var window := StaleWindow(staleAfter);
      ghost var before := access.rows;
      recovered := map[];
      var todo := set id | id in access.rows && QueuedStale(access.rows[id], now - window);
      QueuedStart(before, todo, window, now);
      while todo != {}
        invariant access.targets == old(access.targets)
        invariant QueuedProgress(before, access.rows, todo, recovered, window, now)
        decreases todo
      {
        var id :| id in todo;
        var committed := RecoverQueued(id, window, now);
        todo := todo - {id};
        if committed.Some? {
          recovered := recovered[id := committed.value];
        }
      }
      QueuedDone(old(access.State()), access.rows, recovered, window, now);
      RecoveredAreForgotten(before, access.rows, recovered, staleAfter, now);
    }
  }
}
