/** A scan request is never lost: it stays pending until an admission at or after it. */
module ScanRequests {
  import opened Options
  import opened ScanFailurePolicy
  import opened RuntimeRows
  import opened RuntimeProtocol
  import opened OwnerFencing
  import opened RowEffects

  /** A request at time r or later is pending. */
  predicate Pending(row: RuntimeRow, r: Time) {
    row.scanRequestedAt.Some? && row.scanRequestedAt.value >= r
  }

  /** The row records an enqueue or a start at time r or later. */
  predicate StampedSince(row: RuntimeRow, r: Time) {
    || (row.lastEnqueuedAt.Some? && row.lastEnqueuedAt.value >= r)
    || (row.lastStartedAt.Some? && row.lastStartedAt.value >= r)
  }

  /** The call enqueues or starts a scan attempt. */
  predicate Admits(row: RuntimeRow, op: RowOp, now: Time) {
    (op.MarkQueued? || op.Claim? || op.MarkRunning?) && Attempt(row, op, now).Some?
  }

  /** The calls that drop a pending request by design: an unconditional clear, a stop, an unguarded terminal
      error, the end of an attempt on a target that was stopped meanwhile, and clearing past the last enqueue. */
  predicate Forfeits(row: RuntimeRow, op: RowOp, now: Time) {
    match op
    case ClearRequest => true
    case ResetTo(_) => true
    case ApplyFailure(d, _) => d.Terminal()
    case GuardedFailure(d, _, o) => row.desired == Stopped && d.Terminal() && OwnedBy(row, o)
    case RecoverStaleRunning(after) =>
      row.desired == Stopped && row.lastStartedAt.Some? && RunningStale(row, now - after)
    case ClearRequestIfNotNewer(c) =>
      row.scanRequestedAt.Some? && row.scanRequestedAt.value <= c
      && !(row.lastEnqueuedAt.Some? && c <= row.lastEnqueuedAt.value)
    case _ => false
  }

  /** One call: a pending request stays pending, unless the row already records an admission since,
      this call is one, or it forfeits the request. */
  lemma CallKeepsRequest(row: RuntimeRow, op: RowOp, now: Time, r: Time)
    requires Pending(row, r) && r <= now && !Forfeits(row, op, now)
    ensures Pending(RowStep(row, op, now), r) || StampedSince(row, r) || Admits(row, op, now)
  {
  }

  /** Admission stamps come from admissions only. */
  lemma StampsAreAdmissions(row: RuntimeRow, op: RowOp, now: Time, r: Time)
    requires StampedSince(RowStep(row, op, now), r)
    ensures StampedSince(row, r) || (Admits(row, op, now) && now >= r)
  {
    var next := RowStep(row, op, now);
    assert next.lastEnqueuedAt == row.lastEnqueuedAt || next.lastEnqueuedAt == None || op.MarkQueued?;
    assert next.lastStartedAt == row.lastStartedAt || next.lastStartedAt == None || op.Claim? || op.MarkRunning?;
  }

  /** The forfeiting calls are named exactly: each of them leaves nothing pending. */
  lemma ForfeitingDrops(row: RuntimeRow, op: RowOp, now: Time)
    requires row.scanRequestedAt.Some? && Forfeits(row, op, now)
    ensures RowStep(row, op, now).scanRequestedAt == None
  {
  }

  /** The event admits the target to a scan. */
  predicate AdmitsTarget(db: Db, e: Event, id: Id) {
    && id in db.rows
    && OpOn(db, e.action, id).Some?
    && Admits(db.rows[id], OpOn(db, e.action, id).value, e.now)
  }

  /** The history up to event n holds an admission at time r or later; what came before the run is read off
      the stamps of the first row. */
  ghost predicate ServedSince(run: Run, n: nat, id: Id, r: Time)
    requires run.Valid() && n <= |run.events| && id in run.states[0].rows
  {
    || StampedSince(run.states[0].rows[id], r)
    || exists k :: 0 <= k < n && AdmitsTarget(run.states[k], run.events[k], id) && run.events[k].now >= r
  }

  /** The event neither deletes the target nor forfeits its request. */
  predicate Spares(db: Db, e: Event, id: Id) {
    && e.action != Delete(id)
    && (id in db.rows && OpOn(db, e.action, id).Some? ==> !Forfeits(db.rows[id], OpOn(db, e.action, id).value, e.now))
  }

  lemma EventKeepsRequest(db: Db, e: Event, id: Id, r: Time)
    requires id in db.rows && Spares(db, e, id) && r <= e.now
    ensures id in Step(db, e).rows
    ensures
      var row, next := db.rows[id], Step(db, e).rows[id];
      && (Pending(row, r) ==> Pending(next, r) || StampedSince(row, r) || AdmitsTarget(db, e, id))
      && (StampedSince(next, r) ==> StampedSince(row, r) || AdmitsTarget(db, e, id))
  {
    StepOnRow(db, e, id);
    match OpOn(db, e.action, id)
    case None =>
    case Some(op) =>
      if Pending(db.rows[id], r) {
        CallKeepsRequest(db.rows[id], op, e.now, r);
      }
      if StampedSince(Step(db, e).rows[id], r) {
        StampsAreAdmissions(db.rows[id], op, e.now, r);
      }
  }

  lemma ServedGrows(run: Run, k: nat, id: Id, r: Time)
    requires run.Valid() && k < |run.events| && id in run.states[0].rows
    ensures ServedSince(run, k, id, r) ==> ServedSince(run, k + 1, id, r)
    ensures AdmitsTarget(run.states[k], run.events[k], id) && run.events[k].now >= r ==> ServedSince(run, k + 1, id, r)
  {
  }

  /** Main result: over any run, a request made at time r is still pending, with a time of r or later, unless
      the history records an enqueue or a claim at r or later. */
  lemma {:induction false} NoLostRequest(run: Run, start: Time, n: nat, id: Id, r: Time)
    requires run.Valid() && Timeline(start, run.events) && n <= |run.events|
    requires forall k :: 0 <= k < |run.events| ==> Spares(run.states[k], run.events[k], id)
    requires id in run.states[0].rows && Pending(run.states[0].rows[id], r) && r <= start
    ensures id in run.states[n].rows
    ensures Pending(run.states[n].rows[id], r) || ServedSince(run, n, id, r)
    ensures StampedSince(run.states[n].rows[id], r) ==> ServedSince(run, n, id, r)
  {
    if n > 0 {
      var k := n - 1;
      NoLostRequest(run, start, k, id, r);
      ClockMonotonic(start, run.events, 0, n);
      EventKeepsRequest(run.states[k], run.events[k], id, r);
      assert run.states[n] == Step(run.states[k], run.events[k]);
      ServedGrows(run, k, id, r);
    }
  }

  /** The scheduler clears the request it served right after enqueueing it; that clear never forfeits a
      request, whatever arrived in between. */
  lemma ServedClearIsSafe(row: RuntimeRow, reason: string, observedAt: Time, now: Time, clearedAt: Time)
    requires Attempt(row, MarkQueued(reason), now).Some? && observedAt <= now
    ensures !Forfeits(RowStep(row, MarkQueued(reason), now), ClearRequestIfNotNewer(observedAt), clearedAt)
  {
  }

  /** A guarded terminal failure of an active target keeps every request made after the attempt started. */
  lemma TerminalFailureKeepsNewRequest(row: RuntimeRow, op: RowOp, now: Time)
    requires op.GuardedFailure? && op.decision.Terminal() && OwnedBy(row, op.owner) && row.desired == Active
    ensures RowStep(row, op, now).status == InError
    ensures RowStep(row, op, now).scanRequestedAt ==
            if Pending(row, op.owner.startedAt + 1) then row.scanRequestedAt else None
  {
  }

  // ---- from the request on ----

  /** Main result: asking for a scan records the time, whatever the row's status, and changes nothing else. */
  lemma RequestIsRecorded(row: RuntimeRow, now: Time)
    ensures Attempt(row, RequestScan, now).Some?
    ensures RowStep(row, RequestScan, now) == row.(scanRequestedAt := Some(now), updatedAt := now)
  {
  }

  /** A retry or a restart that takes effect asks for a scan: afterwards a request is pending, made now unless a
      newer request than the attempt's start was there. */
  lemma RetryAsksForScan(row: RuntimeRow, op: RowOp, now: Time)
    requires Retries(op) || op.RestartRuntime?
    requires Attempt(row, op, now).Some?
    ensures
      var next := RowStep(row, op, now);
      && next.status == Idle && next.scanRequestedAt.Some?
      && (next.scanRequestedAt == Some(now)
          || (op.GuardedRetryAfterLock? && next.scanRequestedAt == row.scanRequestedAt
              && row.scanRequestedAt.value > op.owner.startedAt))
  {
    CommitsExactly(row, op, now);
    StatusEffect(row, op, now);
    RequestEffect(row, op, now);
  }

  /** The row's own stamps already answer a request made at r: an enqueue not before it, or a start not before it
      that nothing tells apart from the request, or whose owner may still fail for good. */
  predicate Answered(row: RuntimeRow, r: Time) {
    || (row.lastEnqueuedAt.Some? && row.lastEnqueuedAt.value >= r)
    || (row.lastStartedAt.Some? && row.lastStartedAt.value >= r
        && (row.lastEnqueuedAt.None? || (row.status == Running && row.desired == Active)))
  }

  lemma StaysUnanswered(row: RuntimeRow, op: RowOp, now: Time, r: Time)
    requires !Answered(row, r) && !Admits(row, op, now)
    ensures !Answered(RowStep(row, op, now), r)
  {
    if Commits(row, op, now) {
      StatusEffect(row, op, now);
      DesiredEffect(row, op, now);
      EnqueuedAtEffect(row, op, now);
      StartedAtEffect(row, op, now);
    } else {
      RefusedChangesNothing(row, op, now);
    }
  }

  /** One call: an unanswered request stays pending, unless the call admits the target or forfeits the request. */
  lemma CallKeepsUnanswered(row: RuntimeRow, op: RowOp, now: Time, r: Time)
    requires Pending(row, r) && !Answered(row, r) && r <= now && !Forfeits(row, op, now) && !Admits(row, op, now)
    ensures Pending(RowStep(row, op, now), r)
  {
  }

  /** The call drops the pending request although it neither admits the target nor forfeits requests. */
  predicate Dropped(row: RuntimeRow, op: RowOp, now: Time) {
    !Forfeits(row, op, now) && !Admits(row, op, now) && RowStep(row, op, now).scanRequestedAt == None
  }

  /** Main result: these rows are exactly the ones on which one call that neither admits the target nor forfeits
      requests can drop a request made at r. */
  lemma OnlyAnsweredAreDropped(row: RuntimeRow, r: Time)
    requires row.scanRequestedAt == Some(r)
    ensures Answered(row, r) <==> exists op, now :: r <= now && Dropped(row, op, now)
  {
    if Answered(row, r) {
      if row.lastEnqueuedAt.Some? && row.lastEnqueuedAt.value >= r {
        ClearDrops(row, r);
      } else if row.lastEnqueuedAt.None? {
        IdleDrops(row, r);
      } else {
        FailureDrops(row, Owner(row.activeWorkerId, row.lastStartedAt.value, ""), r);
      }
    }
    if op, now :| r <= now && Dropped(row, op, now) {
      if !Answered(row, r) {
        CallKeepsUnanswered(row, op, now, r);
      }
    }
  }

  lemma ClearDrops(row: RuntimeRow, r: Time)
    requires row.scanRequestedAt == Some(r) && row.lastEnqueuedAt.Some? && row.lastEnqueuedAt.value >= r
    ensures Dropped(row, ClearRequestIfNotNewer(r), r)
  {
  }

  lemma IdleDrops(row: RuntimeRow, r: Time)
    requires row.scanRequestedAt == Some(r) && Answered(row, r) && row.lastEnqueuedAt.None?
    ensures Dropped(row, MarkIdle, r)
  {
  }

  lemma FailureDrops(row: RuntimeRow, owner: Owner, r: Time)
    requires row.scanRequestedAt == Some(r) && OwnedBy(row, owner) && row.desired == Active && owner.startedAt >= r
    ensures Dropped(row, GuardedFailure(FATAL, NoMessage, owner), r)
  {
    FatalIsTerminal();
  }

  /** Some decision that ends in error at once. */
  const FATAL := Decide("target_missing", WorkerFailure, "", 0)

  lemma FatalIsTerminal()
    ensures FATAL.Terminal() && !FATAL.countsTowardStreak
  {
    assert |"target_missing"| == 14;
  }

  /** An admission of the target at time r or later among the events k..n. */
  ghost predicate AdmittedBetween(run: Run, k: nat, n: nat, id: Id, r: Time)
    requires run.Valid() && n <= |run.events|
  {
    exists j :: k <= j < n && AdmitsTarget(run.states[j], run.events[j], id) && run.events[j].now >= r
  }

  /** The event is a scan request for the target that its row's stamps do not already answer. */
  ghost predicate Requests(db: Db, e: Event, id: Id) {
    && e.action == OnRow(id, RequestScan) && id in db.targets
    && (id in db.rows ==> !Answered(db.rows[id], e.now))
  }

  /** The row right after the request. */
  lemma RequestEvent(db: Db, e: Event, id: Id)
    requires Requests(db, e, id)
    ensures Waiting(Step(db, e), id, e.now)
  {
    RequestIsRecorded(Ensured(db, id, e.now), e.now);
  }

  /** The target has a row with an unanswered request made at r or later. */
  ghost predicate Waiting(db: Db, id: Id, r: Time) {
    id in db.rows && Pending(db.rows[id], r) && !Answered(db.rows[id], r)
  }

  lemma EventKeepsWaiting(db: Db, e: Event, id: Id, r: Time)
    requires id in db.rows && Spares(db, e, id) && r <= e.now
    ensures id in Step(db, e).rows
    ensures Waiting(db, id, r) && !AdmitsTarget(db, e, id) ==> Waiting(Step(db, e), id, r)
  {
    StepOnRow(db, e, id);
    if Waiting(db, id, r) && !AdmitsTarget(db, e, id) {
      match OpOn(db, e.action, id)
      case None =>
      case Some(op) =>
        CallKeepsUnanswered(db.rows[id], op, e.now, r);
        StaysUnanswered(db.rows[id], op, e.now, r);
    }
  }

  lemma AdmittedGrows(run: Run, k: nat, n: nat, id: Id, r: Time)
    requires run.Valid() && k <= n < |run.events|
    ensures AdmittedBetween(run, k, n, id, r) ==> AdmittedBetween(run, k, n + 1, id, r)
    ensures AdmitsTarget(run.states[n], run.events[n], id) && run.events[n].now >= r ==>
              AdmittedBetween(run, k, n + 1, id, r)
  {
  }

  /** No event from the k-th on deletes the target or forfeits its request. */
  ghost predicate SparesFrom(run: Run, k: nat, id: Id)
    requires run.Valid()
  {
    forall j :: k <= j < |run.events| ==> Spares(run.states[j], run.events[j], id)
  }

  /** At point n the request of point k is still waiting, or the target was admitted in between. */
  ghost predicate Safe(run: Run, k: nat, n: nat, id: Id, r: Time)
    requires run.Valid() && n <= |run.events|
  {
    id in run.states[n].rows && (AdmittedBetween(run, k, n, id, r) || Waiting(run.states[n], id, r))
  }

  lemma SafeStep(run: Run, k: nat, n: nat, id: Id, r: Time)
    requires run.Valid() && k <= n < |run.events| && r <= run.events[n].now
    requires Spares(run.states[n], run.events[n], id) && Safe(run, k, n, id, r)
    ensures Safe(run, k, n + 1, id, r)
  {
    assert run.states[n + 1] == Step(run.states[n], run.events[n]);
    EventKeepsWaiting(run.states[n], run.events[n], id, r);
    AdmittedGrows(run, k, n, id, r);
  }

  lemma LaterEvent(start: Time, events: seq<Event>, k: nat, n: nat)
    requires Timeline(start, events) && k <= n < |events|
    ensures ClockAt(start, events, k) <= events[n].now
  {
    ClockMonotonic(start, events, k, n + 1);
  }

  lemma SparedAt(run: Run, k: nat, n: nat, id: Id)
    requires run.Valid() && k <= n < |run.events| && SparesFrom(run, k, id)
    ensures Spares(run.states[n], run.events[n], id)
  {
  }

  lemma {:induction false} StaysSafe(run: Run, start: Time, k: nat, n: nat, id: Id, r: Time)
    requires run.Valid() && Timeline(start, run.events) && k <= n <= |run.events|
    requires Safe(run, k, k, id, r) && r <= ClockAt(start, run.events, k) && SparesFrom(run, k, id)
    ensures Safe(run, k, n, id, r)
    decreases n - k
  {
    if k < n {
      StaysSafe(run, start, k, n - 1, id, r);
      LaterEvent(start, run.events, k, n - 1);
      SparedAt(run, k, n - 1, id);
      SafeStep(run, k, n - 1, id, r);
    }
  }

  /** Main result: from the request event on, at every later moment the request is pending, with its time or a later
      one, or the target was admitted to a scan in between, at the request's time or later. */
  lemma RequestSurvives(run: Run, start: Time, k: nat, n: nat, id: Id)
    requires run.Valid() && Timeline(start, run.events) && k < n <= |run.events|
    requires Requests(run.states[k], run.events[k], id)
    requires SparesFrom(run, k + 1, id)
    ensures id in run.states[n].rows
    ensures Pending(run.states[n].rows[id], run.events[k].now)
            || AdmittedBetween(run, k + 1, n, id, run.events[k].now)
  {
    RequestEvent(run.states[k], run.events[k], id);
    assert run.states[k + 1] == Step(run.states[k], run.events[k]);
    StaysSafe(run, start, k + 1, n, id, run.events[k].now);
  }
}
