/** Owner fencing: a running owner that lost its row can never write it again, and an owner that still
    holds its row has been looking at a stable row all along. */
module OwnerFencing {
  import opened Options
  import opened RuntimeRows
  import opened RuntimeProtocol
  import opened ScanFailurePolicy

  /** The row is running for this claim; the page, an extra conjunct of the guards, is left open. */
  predicate RowHeldBy(row: RuntimeRow, owner: Owner) {
    OwnedBy(row, owner.(pageId := ""))
  }

  predicate Holds(db: Db, id: Id, owner: Owner) {
    id in db.rows && RowHeldBy(db.rows[id], owner)
  }

  predicate IsClaim(a: Action) {
    a.OnRow? && (a.op.Claim? || a.op.MarkRunning?)
  }

  /** The clock reading of the last event before position k. */
  function ClockAt(start: Time, events: seq<Event>, k: nat): Time
    requires k <= |events|
  {
    if k == 0 then start else events[k - 1].now
  }

  /** The clock never goes back, and every claim reads a strictly later time than the event before it. */
  ghost predicate Timeline(start: Time, events: seq<Event>) {
    forall k :: 0 <= k < |events| ==>
                  && ClockAt(start, events, k) <= events[k].now
                  && (IsClaim(events[k].action) ==> ClockAt(start, events, k) < events[k].now)
  }

  lemma {:induction false} ClockMonotonic(start: Time, events: seq<Event>, i: nat, j: nat)
    requires Timeline(start, events) && i <= j <= |events|
    ensures ClockAt(start, events, i) <= ClockAt(start, events, j)
    decreases j - i
  {
    if i < j {
      ClockMonotonic(start, events, i, j - 1);
      assert ClockAt(start, events, j - 1) <= events[j - 1].now;
    }
  }

  /** The calls after which nobody owns the row. */
  predicate EndsOwnership(row: RuntimeRow, op: RowOp, now: Time) {
    match op
    case MarkIdle => true
    case ApplySkip(_) => true
    case ApplyFailure(_, _) => true
    case RetryAfterRestart => true
    case ResetTo(_) => true
    case RestartRuntime => true
    case RecoverStaleRunning(after) => RunningStale(row, now - after)
    case GuardedIdle(o) => OwnedBy(row, o)
    case GuardedCancel(o) => OwnedBy(row, o)
    case GuardedSkip(_, o) => OwnedBy(row, o)
    case GuardedFailure(_, _, o) => OwnedBy(row, o)
    case GuardedRetryAfterLock(o) => OwnedBy(row, o)
    case _ => false
  }

  /** Exactly these calls, and a forced MarkRunning by a later claim, take a held row from its owner. */
  lemma OwnershipEnds(row: RuntimeRow, op: RowOp, now: Time, owner: Owner)
    requires RowHeldBy(row, owner)
    requires now != owner.startedAt
    ensures RowHeldBy(RowStep(row, op, now), owner) <==> !EndsOwnership(row, op, now) && !op.MarkRunning?
  {
  }

  /** Only a claim that reads exactly the owner's start time can make the owner hold a row. */
  lemma OnlyItsClaimGrants(row: RuntimeRow, op: RowOp, now: Time, owner: Owner)
    requires !RowHeldBy(row, owner)
    requires (op.Claim? || op.MarkRunning?) ==> now != owner.startedAt
    ensures !RowHeldBy(RowStep(row, op, now), owner)
  {
  }

  lemma StaysLost(db: Db, e: Event, id: Id, owner: Owner)
    requires !Holds(db, id, owner)
    requires IsClaim(e.action) ==> e.now != owner.startedAt
    ensures !Holds(Step(db, e), id, owner)
  {
    if id in Step(db, e).rows {
      if id in db.rows {
        StepOnRow(db, e, id);
        match OpOn(db, e.action, id)
        case None =>
        case Some(op) => OnlyItsClaimGrants(db.rows[id], op, e.now, owner);
      } else {
        StepOnNewRow(db, e, id);
        var desired, op :| Step(db, e).rows[id] == RowAfter(FreshRow(desired, e.now), op, e.now)
                           && (op == None || op == OpOn(db, e.action, id));
        match op
        case None =>
        case Some(o) => OnlyItsClaimGrants(FreshRow(desired, e.now), o, e.now, owner);
      }
    }
  }

  lemma {:induction false} LostForever(run: Run, start: Time, i: nat, j: nat, id: Id, owner: Owner)
    requires run.Valid() && Timeline(start, run.events) && i <= j <= |run.events|
    requires owner.startedAt <= ClockAt(start, run.events, i)
    requires !Holds(run.states[i], id, owner)
    ensures !Holds(run.states[j], id, owner)
    decreases j - i
  {
    if i < j {
      LostForever(run, start, i, j - 1, id, owner);
      ClockMonotonic(start, run.events, i, j - 1);
      StaysLost(run.states[j - 1], run.events[j - 1], id, owner);
    }
  }

  /** A guarded call by a non-owner commits nothing. */
  lemma GuardRejects(db: Db, id: Id, op: RowOp, now: Time, owner: Owner)
    requires id in db.rows
    requires GuardOf(op) == Some(owner) && !Holds(db, id, owner)
    ensures Attempt(db.rows[id], op, now) == None
    ensures OnRowStep(db, id, op, now) == db
  {
    if id in db.targets {
      assert RowStep(db.rows[id], op, now) == db.rows[id];
      assert db.rows[id := db.rows[id]] == db.rows;
    }
  }

  /** Main result. Whatever happens in between, including new claims by the same worker id: once an owner
      has lost the row, none of its guarded calls changes anything. */
  lemma FencedForever(run: Run, start: Time, i: nat, j: nat, id: Id, op: RowOp, owner: Owner)
    requires run.Valid() && Timeline(start, run.events) && i <= j < |run.events|
    requires owner.startedAt <= ClockAt(start, run.events, i)
    requires !Holds(run.states[i], id, owner)
    requires run.events[j].action == OnRow(id, op) && GuardOf(op) == Some(owner)
    requires id in run.states[j].rows
    ensures run.states[j + 1] == run.states[j]
  {
    LostForever(run, start, i, j, id, owner);
    GuardRejects(run.states[j], id, op, run.events[j].now, owner);
    assert run.states[j + 1] == Step(run.states[j], run.events[j]);
  }

  /** What other calls cannot touch while an owner holds the row. */
  predicate SameAttempt(a: RuntimeRow, b: RuntimeRow) {
    && a.desired == b.desired
    && a.status == b.status
    && a.lastEnqueuedAt == b.lastEnqueuedAt
    && a.lastStartedAt == b.lastStartedAt
    && a.lastFinishedAt == b.lastFinishedAt
    && a.enqueueReason == b.enqueueReason
    && a.activeWorkerId == b.activeWorkerId
    && a.failureReason == b.failureReason
    && a.failureCount == b.failureCount
    && a.skipReason == b.skipReason
    && a.skipCount == b.skipCount
  }

  lemma HeldRowIsStable(row: RuntimeRow, op: RowOp, now: Time, owner: Owner)
    requires RowHeldBy(row, owner) && RowHeldBy(RowStep(row, op, now), owner)
    requires now != owner.startedAt || !(op.Claim? || op.MarkRunning?)
    ensures SameAttempt(row, RowStep(row, op, now))
  {
  }

  lemma StepKeepsHeldRow(db: Db, e: Event, id: Id, owner: Owner)
    requires Holds(db, id, owner) && Holds(Step(db, e), id, owner)
    requires IsClaim(e.action) ==> e.now != owner.startedAt
    ensures SameAttempt(db.rows[id], Step(db, e).rows[id])
  {
    StepOnRow(db, e, id);
    match OpOn(db, e.action, id)
    case None =>
    case Some(op) => HeldRowIsStable(db.rows[id], op, e.now, owner);
  }

  lemma HeldBetween(run: Run, start: Time, i: nat, k: nat, j: nat, id: Id, owner: Owner)
    requires run.Valid() && Timeline(start, run.events) && i <= k <= j <= |run.events|
    requires owner.startedAt <= ClockAt(start, run.events, i) && Holds(run.states[j], id, owner)
    ensures Holds(run.states[k], id, owner)
  {
    ClockMonotonic(start, run.events, i, k);
    if !Holds(run.states[k], id, owner) {
      LostForever(run, start, k, j, id, owner);
    }
  }

  /** Main result, the other side of fencing: an owner that holds the row at two moments has held it
      throughout, and nothing its attempt depends on has changed in between. */
  lemma {:induction false} OwnerSeesStableRow(run: Run, start: Time, i: nat, k: nat, j: nat, id: Id, owner: Owner)
    requires run.Valid() && Timeline(start, run.events) && i <= k <= j <= |run.events|
    requires owner.startedAt <= ClockAt(start, run.events, i)
    requires Holds(run.states[i], id, owner) && Holds(run.states[j], id, owner)
    ensures Holds(run.states[k], id, owner)
    ensures SameAttempt(run.states[i].rows[id], run.states[k].rows[id])
    decreases k - i
  {
    HeldBetween(run, start, i, k, j, id, owner);
    if i < k {
      OwnerSeesStableRow(run, start, i, k - 1, j, id, owner);
      ClockMonotonic(start, run.events, i, k - 1);
      StepKeepsHeldRow(run.states[k - 1], run.events[k - 1], id, owner);
    }
  }

  /** Deciding first and writing later is as good as doing both at once: whenever the guarded failure
      write commits, the decision is the one the current row would give. */
  lemma DecisionStaysCurrent(run: Run, start: Time, i: nat, j: nat, id: Id, owner: Owner,
                             reason: string, source: Source, decision: Decision, error: Message, now: Time)
    requires run.Valid() && Timeline(start, run.events) && i <= j <= |run.events|
    requires owner.startedAt <= ClockAt(start, run.events, i)
    requires Holds(run.states[i], id, owner)
    requires decision == DecideFailureOn(run.states[i].rows[id], reason, source)
    requires id in run.states[j].rows
    requires Attempt(run.states[j].rows[id], GuardedFailure(decision, error, owner), now).Some?
    ensures decision == DecideFailureOn(run.states[j].rows[id], reason, source)
  {
    AcceptedIsHeld(run.states[j], id, decision, error, owner, now);
    OwnerSeesStableRow(run, start, i, j, j, id, owner);
    SameDecision(run.states[i].rows[id], run.states[j].rows[id], reason, source);
  }

  lemma SameDecision(a: RuntimeRow, b: RuntimeRow, reason: string, source: Source)
    requires SameAttempt(a, b)
    ensures DecideFailureOn(a, reason, source) == DecideFailureOn(b, reason, source)
  {
  }

  lemma AcceptedIsHeld(db: Db, id: Id, decision: Decision, error: Message, owner: Owner, now: Time)
    requires id in db.rows && Attempt(db.rows[id], GuardedFailure(decision, error, owner), now).Some?
    ensures Holds(db, id, owner)
  {
  }
}
