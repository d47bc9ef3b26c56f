/** One stale-recovery sweep, as a step over the whole runtime table. */
module RecoverySweep {
  import opened Options
  import opened RuntimeRows
  import opened RuntimeProtocol
  import opened ScanFailurePolicy

  /** The sweep recovers a stale running row that records its start. */
  predicate Recoverable(row: RuntimeRow, staleAfter: Time, now: Time) {
    RunningStale(row, now - staleAfter) && row.lastStartedAt.Some?
  }

  predicate QueueRecoverable(row: RuntimeRow, staleAfter: Time, now: Time) {
    QueuedStale(row, now - staleAfter) && row.desired == Active
  }

  ghost predicate OneStaleFailure(row: RuntimeRow, next: RuntimeRow, now: Time) {
    && next.failureReason == STALE_RUNNING
    && next.failureCount == NextStreak(STALE_RUNNING, row.failureReason, row.failureCount)
    && next.status == (if next.failureCount >= RetryLimit(STALE_RUNNING) then InError else Idle)
    && next.lastFinishedAt == Some(now)
    && (next.status == Idle ==> next.scanRequestedAt.Some?)
  }

  /** What one sweep does to one row. */
  lemma SweepOnRow(row: RuntimeRow, staleAfter: Time, now: Time)
    ensures
      var next := SweptRunning(row, staleAfter, now);
      if !Recoverable(row, staleAfter, now) then next == row
      else
        && next.status != Running && next.activeWorkerId == "" && next.activePageId == ""
        && next.desired == row.desired
        && (row.desired == Active ==> OneStaleFailure(row, next, now))
        && (row.desired == Stopped ==> next.status == Idle && next.scanRequestedAt == None
                                       && next.failureReason == row.failureReason
                                       && next.failureCount == row.failureCount)
  {
    assert NormalizeReason(STALE_RUNNING) == STALE_RUNNING;
    assert |STALE_RUNNING| == 13;
  }

  /** Main result: a sweep takes exactly the stale running rows with a start time out of RUNNING, active ones
      with one counted failure and inactive ones to idle without a request; every other row is unchanged; and
      a second sweep at the same time changes nothing. */
  lemma RunningSweepIsExact(db: Db, staleAfter: Time, now: Time)
    ensures
      var next := Step(db, Event(SweepRunning(staleAfter), now));
      && next.targets == db.targets && next.rows.Keys == db.rows.Keys
      && (forall id :: id in db.rows ==>
                         (next.rows[id] != db.rows[id] <==> Recoverable(db.rows[id], staleAfter, now)))
      && (forall id :: id in db.rows && Recoverable(db.rows[id], staleAfter, now) ==>
                         && next.rows[id].status != Running
                         && if db.rows[id].desired == Active then OneStaleFailure(db.rows[id], next.rows[id], now)
                            else next.rows[id].status == Idle && next.rows[id].scanRequestedAt == None)
      && (forall id :: id in next.rows ==> !Recoverable(next.rows[id], staleAfter, now))
      && Step(next, Event(SweepRunning(staleAfter), now)) == next
  {
    var next := Step(db, Event(SweepRunning(staleAfter), now));
    forall id | id in db.rows
      ensures next.rows[id] != db.rows[id] <==> Recoverable(db.rows[id], staleAfter, now)
      ensures Recoverable(db.rows[id], staleAfter, now) ==>
                && next.rows[id].status != Running
                && if db.rows[id].desired == Active then OneStaleFailure(db.rows[id], next.rows[id], now)
                   else next.rows[id].status == Idle && next.rows[id].scanRequestedAt == None
      ensures SweptRunning(next.rows[id], staleAfter, now) == next.rows[id]
    {
      SweepOnRow(db.rows[id], staleAfter, now);
      SweepOnRow(next.rows[id], staleAfter, now);
    }
  }

  /** Idle, with request, streak and admission stamps kept. */
  ghost predicate QueueReleased(row: RuntimeRow, next: RuntimeRow) {
    && next.status == Idle && next.enqueueReason == "" && next.activeWorkerId == "" && next.activePageId == ""
    && next.desired == row.desired
    && next.scanRequestedAt == row.scanRequestedAt
    && next.lastEnqueuedAt == row.lastEnqueuedAt && next.lastStartedAt == row.lastStartedAt
    && next.failureReason == row.failureReason && next.failureCount == row.failureCount
    && next.skipReason == row.skipReason && next.skipCount == row.skipCount
  }

  lemma QueuedSweepOnRow(row: RuntimeRow, staleAfter: Time, now: Time)
    ensures SweptQueued(row, staleAfter, now) ==
            if !QueueRecoverable(row, staleAfter, now) then row
            else row.(status := Idle, enqueueReason := "", activeWorkerId := "",
                 activePageId := "", lastError := NoMessage,
                 lastSkipReason := QueueWaitExpired(staleAfter / SECOND), updatedAt := now)
  {
  }

  /** The same for queued rows: the stale active ones go back to idle with their scan request, streak and
      admission stamps kept. */
  lemma QueuedSweepIsExact(db: Db, staleAfter: Time, now: Time)
    ensures
      var next := Step(db, Event(SweepQueued(staleAfter), now));
      && next.targets == db.targets && next.rows.Keys == db.rows.Keys
      && (forall id :: id in db.rows ==>
                         if !QueueRecoverable(db.rows[id], staleAfter, now) then next.rows[id] == db.rows[id]
                         else QueueReleased(db.rows[id], next.rows[id]))
      && (forall id :: id in next.rows ==> !QueueRecoverable(next.rows[id], staleAfter, now))
  {
    var next := Step(db, Event(SweepQueued(staleAfter), now));
    forall id | id in db.rows
      ensures if !QueueRecoverable(db.rows[id], staleAfter, now) then next.rows[id] == db.rows[id]
              else QueueReleased(db.rows[id], next.rows[id])
      ensures !QueueRecoverable(next.rows[id], staleAfter, now)
    {
      QueuedSweepOnRow(db.rows[id], staleAfter, now);
    }
  }
}
