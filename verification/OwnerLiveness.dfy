/** The stale sweeps leave the living alone: an owner that showed itself within the window keeps its row, and a row
    enqueued within the window stays queued. */
module OwnerLiveness {
  import opened Options
  import opened RuntimeRows
  import opened RuntimeProtocol
  import opened OwnerFencing
  import opened RowEffects

  /** Main result: a sweep takes a row out of RUNNING exactly when it is running with a recorded start and was last
      seen at or before the window's edge; any other row is as it was. */
  lemma SweepTakesTheSilent(db: Db, window: Time, now: Time, id: Id)
    requires id in db.rows
    ensures
      var row, next := db.rows[id], Step(db, Event(SweepRunning(window), now)).rows[id];
      if row.status == Running && row.lastStartedAt.Some? && LastSeen(row) <= now - window
      then next.status != Running && next.activeWorkerId == "" && next.updatedAt == now
      else next == row
  {
    StepOnRow(db, Event(SweepRunning(window), now), id);
    SilentRow(db.rows[id], window, now);
  }

  lemma SilentRow(row: RuntimeRow, window: Time, now: Time)
    ensures
      var next := RowStep(row, RecoverStaleRunning(window), now);
      if Commits(row, RecoverStaleRunning(window), now)
      then next.status != Running && next.activeWorkerId == "" && next.updatedAt == now
      else next == row
  {
    if Commits(row, RecoverStaleRunning(window), now) {
      StatusEffect(row, RecoverStaleRunning(window), now);
      WorkerEffect(row, RecoverStaleRunning(window), now);
      UpdatedAtEffect(row, RecoverStaleRunning(window), now);
    } else {
      RefusedChangesNothing(row, RecoverStaleRunning(window), now);
    }
  }

  /** Main result: the queued sweep releases a row exactly when it is queued and active and was enqueued at or before
      the window's edge. */
  lemma SweepTakesTheForgotten(db: Db, window: Time, now: Time, id: Id)
    requires id in db.rows
    ensures
      var row, next := db.rows[id], Step(db, Event(SweepQueued(window), now)).rows[id];
      if row.status == Queued && row.desired == Active && QueuedSince(row) <= now - window
      then next.status == Idle && next.scanRequestedAt == row.scanRequestedAt && next.updatedAt == now
      else next == row
  {
    StepOnRow(db, Event(SweepQueued(window), now), id);
    ForgottenRow(db.rows[id], window, now);
  }

  lemma ForgottenRow(row: RuntimeRow, window: Time, now: Time)
    ensures
      var next := RowStep(row, RecoverStaleQueued(window), now);
      if Commits(row, RecoverStaleQueued(window), now)
      then next.status == Idle && next.scanRequestedAt == row.scanRequestedAt && next.updatedAt == now
      else next == row
  {
    if Commits(row, RecoverStaleQueued(window), now) {
      StatusEffect(row, RecoverStaleQueued(window), now);
      RequestEffect(row, RecoverStaleQueued(window), now);
      UpdatedAtEffect(row, RecoverStaleQueued(window), now);
    } else {
      RefusedChangesNothing(row, RecoverStaleQueued(window), now);
    }
  }

  // ---- owners ----

  /** The row was last seen at t or later. */
  predicate SeenSince(row: RuntimeRow, t: Time) {
    row.lastHeartbeatAt.Some? && row.lastHeartbeatAt.value >= t
  }

  /** A start, heartbeat or reload that takes effect shows the owner at its time. */
  lemma BeatIsSeen(row: RuntimeRow, op: RowOp, now: Time)
    requires (Starts(op) || Beats(op)) && Attempt(row, op, now).Some?
    ensures SeenSince(RowStep(row, op, now), now)
  {
    CommitsExactly(row, op, now);
    HeartbeatEffect(row, op, now);
  }

  /** While the row stays running, no call takes a sign of life back. */
  lemma SeenStaysSeen(row: RuntimeRow, op: RowOp, now: Time, t: Time)
    requires SeenSince(row, t) && t <= now && RowStep(row, op, now).status == Running
    ensures SeenSince(RowStep(row, op, now), t)
  {
    if Commits(row, op, now) {
      StatusEffect(row, op, now);
      HeartbeatEffect(row, op, now);
    } else {
      RefusedChangesNothing(row, op, now);
    }
  }

  lemma StepKeepsSeen(db: Db, e: Event, id: Id, owner: Owner, t: Time)
    requires Holds(db, id, owner) && Holds(Step(db, e), id, owner) && SeenSince(db.rows[id], t) && t <= e.now
    ensures SeenSince(Step(db, e).rows[id], t)
  {
    StepOnRow(db, e, id);
    match OpOn(db, e.action, id)
    case None =>
    case Some(op) => SeenStaysSeen(db.rows[id], op, e.now, t);
  }

  lemma {:induction false} HeldIsSeen(run: Run, start: Time, k: nat, m: nat, j: nat, id: Id, owner: Owner, t: Time)
    requires run.Valid() && Timeline(start, run.events) && k <= m <= j <= |run.events|
    requires owner.startedAt <= ClockAt(start, run.events, k) && t <= ClockAt(start, run.events, k)
    requires Holds(run.states[k], id, owner) && SeenSince(run.states[k].rows[id], t)
    requires Holds(run.states[j], id, owner)
    ensures Holds(run.states[m], id, owner) && SeenSince(run.states[m].rows[id], t)
    decreases m - k
  {
    HeldBetween(run, start, k, m, j, id, owner);
    if k < m {
      HeldIsSeen(run, start, k, m - 1, j, id, owner, t);
      ClockMonotonic(start, run.events, k, m);
      StepKeepsSeen(run.states[m - 1], run.events[m - 1], id, owner, t);
    }
  }

  /** Main result: an owner that holds its row and started, beat or reloaded less than the window ago is left alone. */
  lemma LivingOwnerIsLeftAlone(run: Run, start: Time, k: nat, j: nat, id: Id, owner: Owner, op: RowOp, window: Time)
    requires run.Valid() && Timeline(start, run.events) && k < j < |run.events|
    requires id in run.states[k].rows && OpOn(run.states[k], run.events[k].action, id) == Some(op)
    requires (Starts(op) || Beats(op)) && Attempt(run.states[k].rows[id], op, run.events[k].now).Some?
    requires Holds(run.states[k + 1], id, owner) && owner.startedAt <= run.events[k].now
    requires Holds(run.states[j], id, owner)
    requires run.events[j].action == SweepRunning(window) && run.events[j].now - run.events[k].now < window
    ensures id in run.states[j + 1].rows && run.states[j + 1].rows[id] == run.states[j].rows[id]
  {
    var t := run.events[k].now;
    BeatEvent(run.states[k], run.events[k], id, op);
    assert run.states[k + 1] == Step(run.states[k], run.events[k]);
    HeldIsSeen(run, start, k + 1, j, j, id, owner, t);
    SweepTakesTheSilent(run.states[j], window, run.events[j].now, id);
    assert run.states[j + 1] == Step(run.states[j], run.events[j]);
    StepOnRow(run.states[j], run.events[j], id);
  }

  lemma BeatEvent(db: Db, e: Event, id: Id, op: RowOp)
    requires id in db.rows && OpOn(db, e.action, id) == Some(op) && id in Step(db, e).rows
    requires (Starts(op) || Beats(op)) && Attempt(db.rows[id], op, e.now).Some?
    ensures SeenSince(Step(db, e).rows[id], e.now)
  {
    StepOnRow(db, e, id);
    BeatIsSeen(db.rows[id], op, e.now);
  }

  // ---- queued rows ----

  /** If the row is queued, it was enqueued at t or later. */
  predicate QueuedFrom(row: RuntimeRow, t: Time) {
    row.status == Queued ==> row.lastEnqueuedAt.Some? && row.lastEnqueuedAt.value >= t
  }

  lemma CallKeepsQueuedFrom(row: RuntimeRow, op: RowOp, now: Time, t: Time)
    requires QueuedFrom(row, t) && t <= now
    ensures QueuedFrom(RowStep(row, op, now), t)
  {
    if Commits(row, op, now) {
      StatusEffect(row, op, now);
      EnqueuedAtEffect(row, op, now);
    } else {
      RefusedChangesNothing(row, op, now);
    }
  }

  lemma StepKeepsQueuedFrom(db: Db, e: Event, id: Id, t: Time)
    requires (id in db.rows ==> QueuedFrom(db.rows[id], t)) && t <= e.now
    ensures id in Step(db, e).rows ==> QueuedFrom(Step(db, e).rows[id], t)
  {
    if id in Step(db, e).rows {
      if id in db.rows {
        StepOnRow(db, e, id);
        match OpOn(db, e.action, id)
        case None =>
        case Some(op) => CallKeepsQueuedFrom(db.rows[id], op, e.now, t);
      } else {
        StepOnNewRow(db, e, id);
        var desired, op :| Step(db, e).rows[id] == RowAfter(FreshRow(desired, e.now), op, e.now)
                           && (op == None || op == OpOn(db, e.action, id));
        match op
        case None =>
        case Some(o) => CallKeepsQueuedFrom(FreshRow(desired, e.now), o, e.now, t);
      }
    }
  }

  lemma {:induction false} StaysQueuedFrom(run: Run, start: Time, k: nat, j: nat, id: Id, t: Time)
    requires run.Valid() && Timeline(start, run.events) && k <= j <= |run.events| && t <= ClockAt(start, run.events, k)
    requires id in run.states[k].rows ==> QueuedFrom(run.states[k].rows[id], t)
    ensures id in run.states[j].rows ==> QueuedFrom(run.states[j].rows[id], t)
    decreases j - k
  {
    if k < j {
      StaysQueuedFrom(run, start, k, j - 1, id, t);
      ClockMonotonic(start, run.events, k, j);
      StepKeepsQueuedFrom(run.states[j - 1], run.events[j - 1], id, t);
      assert run.states[j] == Step(run.states[j - 1], run.events[j - 1]);
    }
  }

  /** Main result: a row enqueued less than the window ago is left alone by the queued sweep, whatever came between. */
  lemma FreshlyQueuedIsLeftAlone(run: Run, start: Time, k: nat, j: nat, id: Id, reason: string, window: Time)
    requires run.Valid() && Timeline(start, run.events) && k < j < |run.events|
    requires id in run.states[k].rows && run.events[k].action == OnRow(id, MarkQueued(reason))
    requires id in run.states[k].targets && Attempt(run.states[k].rows[id], MarkQueued(reason), run.events[k].now).Some?
    requires id in run.states[j].rows
    requires run.events[j].action == SweepQueued(window) && run.events[j].now - run.events[k].now < window
    ensures id in run.states[j + 1].rows && run.states[j + 1].rows[id] == run.states[j].rows[id]
  {
    EnqueueEvent(run.states[k], run.events[k], id, reason);
    assert run.states[k + 1] == Step(run.states[k], run.events[k]);
    StaysQueuedFrom(run, start, k + 1, j, id, run.events[k].now);
    SweepTakesTheForgotten(run.states[j], window, run.events[j].now, id);
    assert run.states[j + 1] == Step(run.states[j], run.events[j]);
    StepOnRow(run.states[j], run.events[j], id);
  }

  lemma EnqueueEvent(db: Db, e: Event, id: Id, reason: string)
    requires id in db.rows && id in db.targets && e.action == OnRow(id, MarkQueued(reason))
    requires Attempt(db.rows[id], MarkQueued(reason), e.now).Some?
    ensures id in Step(db, e).rows && QueuedFrom(Step(db, e).rows[id], e.now)
  {
    StepOnRow(db, e, id);
    CommitsExactly(db.rows[id], MarkQueued(reason), e.now);
    EnqueuedAtEffect(db.rows[id], MarkQueued(reason), e.now);
  }
}
