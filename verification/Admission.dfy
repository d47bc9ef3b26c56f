/** When a target is admitted to a scan: enqueue and claim are granted exactly when they should be. */
module Admission {
  import opened Options
  import opened RuntimeRows
  import opened RuntimeProtocol
  import opened OwnerFencing
  import opened RowEffects

  /** What an admission leaves alone. */
  predicate SameStanding(a: RuntimeRow, b: RuntimeRow) {
    && a.desired == b.desired && a.scanRequestedAt == b.scanRequestedAt
    && a.failureReason == b.failureReason && a.failureCount == b.failureCount
    && a.skipReason == b.skipReason && a.skipCount == b.skipCount
    && a.scanGuardCount == b.scanGuardCount && a.displayNextDueAt == b.displayNextDueAt
    && a.lastFinishedAt == b.lastFinishedAt && a.lastPageReloadedAt == b.lastPageReloadedAt
  }

  /** Main result: a claim is granted exactly to an active row that is idle or queued. It leaves the row running, held
      by this worker since now on the given page, with a heartbeat now, and request and streaks as they were. */
  lemma ClaimIsGranted(row: RuntimeRow, workerId: string, pageId: string, now: Time)
    ensures Attempt(row, Claim(workerId, pageId), now).Some? <==>
            row.desired == Active && (row.status == Idle || row.status == Queued)
    ensures Attempt(row, Claim(workerId, pageId), now).Some? ==>
              var next := RowStep(row, Claim(workerId, pageId), now);
              && next.status == Running && RowHeldBy(next, Owner(workerId, now, ""))
              && next.activePageId == pageId && next.lastHeartbeatAt == Some(now)
              && SameStanding(row, next) && next.lastEnqueuedAt == row.lastEnqueuedAt
  {
    CommitsExactly(row, Claim(workerId, pageId), now);
  }

  /** Main result: an enqueue is granted exactly to an active idle row. It leaves the row queued for the given reason,
      stamped now, owned by nobody, with request and streaks as they were. */
  lemma EnqueueIsGranted(row: RuntimeRow, reason: string, now: Time)
    ensures Attempt(row, MarkQueued(reason), now).Some? <==> row.desired == Active && row.status == Idle
    ensures Attempt(row, MarkQueued(reason), now).Some? ==>
              var next := RowStep(row, MarkQueued(reason), now);
              && next.status == Queued && next.enqueueReason == reason && next.lastEnqueuedAt == Some(now)
              && next.activeWorkerId == "" && next.activePageId == ""
              && SameStanding(row, next) && next.lastStartedAt == row.lastStartedAt
  {
    CommitsExactly(row, MarkQueued(reason), now);
  }

  /** Main result: what the scheduler enqueued, any worker can claim next; and then nobody else can, nor can it be
      enqueued again, until the owner is gone. */
  lemma EnqueuedCanBeClaimed(row: RuntimeRow, reason: string, enqueuedAt: Time, workerId: string, pageId: string,
                             now: Time)
    requires Attempt(row, MarkQueued(reason), enqueuedAt).Some?
    ensures
      var queued := RowStep(row, MarkQueued(reason), enqueuedAt);
      && Attempt(queued, Claim(workerId, pageId), now).Some?
      && var running := RowStep(queued, Claim(workerId, pageId), now);
         forall op: RowOp, at :: op.Claim? || op.MarkQueued? ==> Attempt(running, op, at).None?
  {
    EnqueueIsGranted(row, reason, enqueuedAt);
    var queued := RowStep(row, MarkQueued(reason), enqueuedAt);
    ClaimIsGranted(queued, workerId, pageId, now);
    var running := RowStep(queued, Claim(workerId, pageId), now);
    forall op: RowOp, at | op.Claim? || op.MarkQueued? ensures Attempt(running, op, at).None? {
      CommitsExactly(running, op, at);
    }
  }

  /** Main result: whatever ends an attempt of an active target, short of a terminal failure, leaves the row ready to
      be enqueued again; after a terminal failure neither enqueue nor claim is granted until the row is reset. */
  lemma EndedCanBeEnqueued(row: RuntimeRow, op: RowOp, now: Time, reason: string, at: Time)
    requires row.desired == Active && Frees(row, op) && Attempt(row, op, now).Some?
    ensures
      Attempt(RowStep(row, op, now), MarkQueued(reason), at).Some? <==>
      !(Fails(row, op) && FailureOf(row, op).value.Terminal())
    ensures Fails(row, op) && FailureOf(row, op).value.Terminal() ==>
              forall w, p :: Attempt(RowStep(row, op, now), Claim(w, p), at).None?
  {
    CommitsExactly(row, op, now);
    StatusEffect(row, op, now);
    DesiredEffect(row, op, now);
    var next := RowStep(row, op, now);
    CommitsExactly(next, MarkQueued(reason), at);
    forall w, p ensures Fails(row, op) && FailureOf(row, op).value.Terminal() ==>
                          Attempt(next, Claim(w, p), at).None?
    {
      CommitsExactly(next, Claim(w, p), at);
    }
  }
}
