/** The streak counter of a row summarises the row's history of scan outcomes. */
module FailureStreak {
  import opened Options
  import opened RuntimeRows
  import opened RuntimeProtocol
  import opened ScanFailurePolicy
  import opened OwnerFencing
  import RecoverySweep

  /** What one call contributes to the streak history. */
  datatype Outcome = Counted(reason: string) | Cleared

  function FailureOutcome(d: Decision): Outcome {
    if d.countsTowardStreak then Counted(d.reason) else Cleared
  }

  /** A success, a stop, a start or an uncounted failure clears; a counted failure counts; anything else,
      skips and retry writes included, and every rejected write leaves no trace. */
  function OutcomeOf(row: RuntimeRow, op: RowOp, now: Time): Option<Outcome> {
    if Attempt(row, op, now).None? then None
    else match op
      case MarkIdle => Some(Cleared)
      case MarkIdleIfNotRunning => Some(Cleared)
      case GuardedIdle(_) => Some(Cleared)
      case ResetTo(_) => Some(Cleared)
      case RestartRuntime => Some(Cleared)
      case ApplyFailure(d, _) => Some(FailureOutcome(d))
      case GuardedFailure(d, _, _) => Some(FailureOutcome(d))
      case RecoverStaleRunning(_) => if row.desired == Active then Some(Counted(STALE_RUNNING)) else None
      case _ => None
  }

  /** The decision was taken by the policy on the streak the row still shows. */
  ghost predicate Current(row: RuntimeRow, d: Decision) {
    exists reason, source :: d == DecideFailureOn(row, reason, source)
  }

  /** Committed failure writes carry current decisions; OwnerFencing.DecisionStaysCurrent is why they do. */
  ghost predicate CallIsCurrent(row: RuntimeRow, op: RowOp, now: Time) {
    (op.ApplyFailure? || op.GuardedFailure?) && Attempt(row, op, now).Some? ==> Current(row, op.decision)
  }

  /** What one event contributes to a target's streak history. */
  function OutcomeAt(db: Db, e: Event, id: Id): Option<Outcome> {
    if id !in db.rows || OpOn(db, e.action, id).None? then None
    else OutcomeOf(db.rows[id], OpOn(db, e.action, id).value, e.now)
  }

  /** The outcomes the first n events of a run leave for one target. */
  function History(run: Run, n: nat, id: Id): seq<Outcome>
    requires n <= |run.events| && n < |run.states|
  {
    if n == 0 then []
    else Extended(History(run, n - 1, id), OutcomeAt(run.states[n - 1], run.events[n - 1], id))
  }

  function Extended(h: seq<Outcome>, o: Option<Outcome>): seq<Outcome> {
    if o.Some? then h + [o.value] else h
  }

  /** How many counted failures with this reason end the history. */
  function RunLength(h: seq<Outcome>, reason: string): (r: nat)
    ensures r <= |h|
    ensures r > 0 <==> h != [] && h[|h| - 1] == Counted(reason)
  {
    if h == [] || h[|h| - 1] != Counted(reason) then 0 else RunLength(h[..|h| - 1], reason) + 1
  }

  /** The run is what it is called: the longest ending made of counted failures with the reason. */
  lemma {:induction false} RunLengthIsMaximal(h: seq<Outcome>, reason: string)
    ensures forall i :: |h| - RunLength(h, reason) <= i < |h| ==> h[i] == Counted(reason)
    ensures RunLength(h, reason) < |h| ==> h[|h| - RunLength(h, reason) - 1] != Counted(reason)
  {
    if RunLength(h, reason) > 0 {
      RunLengthIsMaximal(h[..|h| - 1], reason);
    }
  }

  /** (reason, count) is the latest run of counted failures with one reason, and no run shows as ("", 0). */
  ghost predicate Summarises(h: seq<Outcome>, reason: string, count: int) {
    && count == RunLength(h, reason)
    && (count == 0 ==> reason == "" && (h == [] || h[|h| - 1] == Cleared))
  }

  /** The summary is determined by the history. */
  lemma SummaryIsUnique(h: seq<Outcome>, r1: string, c1: int, r2: string, c2: int)
    requires Summarises(h, r1, c1) && Summarises(h, r2, c2)
    ensures r1 == r2 && c1 == c2
  {
  }

  /** Adding an outcome updates the summary the way NextStreak does. */
  lemma SummaryExtends(h: seq<Outcome>, reason: string, count: int, next: string)
    requires Summarises(h, reason, count)
    ensures Summarises(h + [Counted(next)], next, NextStreak(next, reason, count))
  {
    assert (h + [Counted(next)])[..|h|] == h;
  }

  /** A committed counted failure moves the pair by NextStreak and ends in error exactly from the limit on. */
  lemma CountedWrite(row: RuntimeRow, op: RowOp, now: Time)
    requires OutcomeOf(row, op, now).Some? && OutcomeOf(row, op, now).value.Counted?
    requires CallIsCurrent(row, op, now)
    ensures
      var reason, next := OutcomeOf(row, op, now).value.reason, RowStep(row, op, now);
      && reason != ""
      && next.failureReason == reason
      && next.failureCount == NextStreak(reason, row.failureReason, row.failureCount)
      && next.status == (if next.failureCount >= RetryLimit(reason) then InError else Idle)
  {
    if op.RecoverStaleRunning? {
      RecoverySweep.SweepOnRow(row, op.staleAfter, now);
    } else {
      var reason, source :| op.decision == DecideFailureOn(row, reason, source);
      CountedDecision(reason, source, row.failureReason, row.failureCount);
    }
  }

  lemma StreakStep(h: seq<Outcome>, row: RuntimeRow, op: RowOp, now: Time)
    requires Summarises(h, row.failureReason, row.failureCount)
    requires CallIsCurrent(row, op, now)
    ensures
      var next := RowStep(row, op, now);
      Summarises(Extended(h, OutcomeOf(row, op, now)), next.failureReason, next.failureCount)
  {
    match OutcomeOf(row, op, now)
    case None =>
    case Some(Cleared) =>
    case Some(Counted(reason)) =>
      CountedWrite(row, op, now);
      SummaryExtends(h, row.failureReason, row.failureCount, reason);
  }

  /** The event does not delete the target, and a failure it commits was decided on the current streak. */
  ghost predicate EventIsCurrent(db: Db, e: Event, id: Id) {
    && e.action != Delete(id)
    && (id in db.rows && OpOn(db, e.action, id).Some? ==>
          CallIsCurrent(db.rows[id], OpOn(db, e.action, id).value, e.now))
  }

  lemma EventStreak(db: Db, e: Event, id: Id, h: seq<Outcome>)
    requires id in db.rows && EventIsCurrent(db, e, id)
    requires Summarises(h, db.rows[id].failureReason, db.rows[id].failureCount)
    ensures id in Step(db, e).rows
    ensures
      var next := Step(db, e).rows[id];
      Summarises(Extended(h, OutcomeAt(db, e, id)), next.failureReason, next.failureCount)
  {
    StepOnRow(db, e, id);
    match OpOn(db, e.action, id)
    case None =>
    case Some(op) => StreakStep(h, db.rows[id], op, e.now);
  }

  ghost predicate AllCurrent(run: Run, id: Id)
    requires run.Valid()
  {
    forall k {:trigger EventIsCurrent(run.states[k], run.events[k], id)} ::
      0 <= k < |run.events| ==> EventIsCurrent(run.states[k], run.events[k], id)
  }

  ghost predicate StartsClean(run: Run, id: Id)
    requires |run.states| > 0
  {
    id in run.states[0].rows && run.states[0].rows[id].failureReason == "" && run.states[0].rows[id].failureCount == 0
  }

  /** The summary theorem for runs whose committed failure writes carry current decisions. */
  lemma {:induction false} CurrentRunIsSummarised(run: Run, n: nat, id: Id)
    requires run.Valid() && n <= |run.events| && StartsClean(run, id) && AllCurrent(run, id)
    ensures id in run.states[n].rows
    ensures
      var row := run.states[n].rows[id];
      Summarises(History(run, n, id), row.failureReason, row.failureCount)
  {
    if n > 0 {
      CurrentRunIsSummarised(run, n - 1, id);
      EventStreak(run.states[n - 1], run.events[n - 1], id, History(run, n - 1, id));
    }
  }

  // ---- deciding first and writing later ----

  /** At point i of the run the owner held the row, and the decision is the policy's on the row as it was then. */
  ghost predicate DecidedAt(run: Run, start: Time, i: nat, id: Id, owner: Owner, d: Decision)
    requires run.Valid() && i <= |run.events|
  {
    && owner.startedAt <= ClockAt(start, run.events, i)
    && Holds(run.states[i], id, owner)
    && Current(run.states[i].rows[id], d)
  }

  /** Before event n, or right at it, the decision was taken while the owner held the row. */
  ghost predicate DecidedBy(run: Run, start: Time, n: nat, id: Id, owner: Owner, d: Decision)
    requires run.Valid() && n <= |run.events|
  {
    exists i: nat :: i <= n && DecidedAt(run, start, i, id, owner, d)
  }

  /** The event does not delete the target, and a failure it commits was decided on the row it writes, or, when
      guarded, at any earlier point at which its owner held the row. */
  ghost predicate EventIsDecided(run: Run, start: Time, n: nat, id: Id)
    requires run.Valid() && n < |run.events|
  {
    var db, e := run.states[n], run.events[n];
    && e.action != Delete(id)
    && (id in db.rows && OpOn(db, e.action, id).Some? ==>
          var op := OpOn(db, e.action, id).value;
          || CallIsCurrent(db.rows[id], op, e.now)
          || (op.GuardedFailure? && DecidedBy(run, start, n, id, op.owner, op.decision)))
  }

  ghost predicate AllDecided(run: Run, start: Time, id: Id)
    requires run.Valid()
  {
    forall n {:trigger EventIsDecided(run, start, n, id)} :: 0 <= n < |run.events| ==> EventIsDecided(run, start, n, id)
  }

  /** Fencing makes an earlier decision a current one by the time its guarded write commits. */
  lemma DecidedIsCurrent(run: Run, start: Time, n: nat, id: Id, op: RowOp)
    requires run.Valid() && Timeline(start, run.events) && n < |run.events| && id in run.states[n].rows
    requires op.GuardedFailure? && DecidedBy(run, start, n, id, op.owner, op.decision)
    ensures CallIsCurrent(run.states[n].rows[id], op, run.events[n].now)
  {
    var i: nat :| i <= n && DecidedAt(run, start, i, id, op.owner, op.decision);
    var reason, source :| op.decision == DecideFailureOn(run.states[i].rows[id], reason, source);
    if Attempt(run.states[n].rows[id], op, run.events[n].now).Some? {
      DecisionStaysCurrent(run, start, i, n, id, op.owner, reason, source, op.decision, op.error, run.events[n].now);
    }
  }

  lemma DecidedRunIsCurrent(run: Run, start: Time, id: Id)
    requires run.Valid() && Timeline(start, run.events) && AllDecided(run, start, id)
    ensures AllCurrent(run, id)
  {
    forall k | 0 <= k < |run.events| ensures EventIsCurrent(run.states[k], run.events[k], id) {
      assert EventIsDecided(run, start, k, id);
      var db, e := run.states[k], run.events[k];
      if id in db.rows && OpOn(db, e.action, id).Some? {
        var op := OpOn(db, e.action, id).value;
        if !CallIsCurrent(db.rows[id], op, e.now) {
          DecidedIsCurrent(run, start, k, id, op);
        }
      }
    }
  }

  // ---- the streak over a run ----

  /** Main result: at every point of every run in which failures are decided while their owner holds the row, the
      stored pair is the length of the latest same-reason run of counted failures in the history. */
  lemma StreakSummarisesHistory(run: Run, start: Time, n: nat, id: Id)
    requires run.Valid() && Timeline(start, run.events) && n <= |run.events|
    requires StartsClean(run, id) && AllDecided(run, start, id)
    ensures id in run.states[n].rows
    ensures
      var row := run.states[n].rows[id];
      Summarises(History(run, n, id), row.failureReason, row.failureCount)
  {
    DecidedRunIsCurrent(run, start, id);
    CurrentRunIsSummarised(run, n, id);
  }

  /** The stored pair is the history's summary, read the other way round. */
  lemma SummaryIsStored(run: Run, n: nat, id: Id, reason: string, k: nat)
    requires run.Valid() && n <= |run.events| && StartsClean(run, id) && AllCurrent(run, id)
    ensures id in run.states[n].rows
    ensures Summarises(History(run, n, id), reason, k) ==>
              run.states[n].rows[id].failureReason == reason && run.states[n].rows[id].failureCount == k
  {
    CurrentRunIsSummarised(run, n, id);
    var h, row := History(run, n, id), run.states[n].rows[id];
    if Summarises(h, reason, k) {
      SummaryIsUnique(h, reason, k, row.failureReason, row.failureCount);
    }
  }

  /** Event n adds a counted failure with this reason to the history. */
  ghost predicate Counts(run: Run, n: nat, id: Id, reason: string)
    requires run.Valid() && n < |run.events|
  {
    History(run, n + 1, id) == History(run, n, id) + [Counted(reason)]
  }

  /** Main result: the k-th failure of a same-reason run ends in error exactly when k reaches the reason's limit. */
  lemma LimitEndsInError(run: Run, start: Time, n: nat, id: Id, reason: string, k: nat)
    requires run.Valid() && Timeline(start, run.events) && n < |run.events|
    requires StartsClean(run, id) && AllDecided(run, start, id)
    requires Counts(run, n, id, reason) && Summarises(History(run, n + 1, id), reason, k)
    ensures id in run.states[n + 1].rows
    ensures run.states[n + 1].rows[id].status == if k >= RetryLimit(reason) then InError else Idle
  {
    DecidedRunIsCurrent(run, start, id);
    SummaryIsStored(run, n + 1, id, reason, k);
    RunEndsAttempt(run, n, id, reason, k);
  }

  lemma RunEndsAttempt(run: Run, n: nat, id: Id, reason: string, k: nat)
    requires run.Valid() && n < |run.events| && AllCurrent(run, id) && Counts(run, n, id, reason)
    ensures id in run.states[n + 1].rows
    ensures run.states[n + 1].rows[id].failureCount == k ==>
              run.states[n + 1].rows[id].status == if k >= RetryLimit(reason) then InError else Idle
  {
    LastOutcome(run, n, id, reason);
    assert EventIsCurrent(run.states[n], run.events[n], id);
    EventEndsAttempt(run.states[n], run.events[n], id, reason);
  }

  lemma LastOutcome(run: Run, n: nat, id: Id, reason: string)
    requires run.Valid() && n < |run.events| && Counts(run, n, id, reason)
    ensures OutcomeAt(run.states[n], run.events[n], id) == Some(Counted(reason))
  {
    ExtendedBy(History(run, n, id), OutcomeAt(run.states[n], run.events[n], id), Counted(reason));
  }

  lemma ExtendedBy(h: seq<Outcome>, o: Option<Outcome>, last: Outcome)
    requires Extended(h, o) == h + [last]
    ensures o == Some(last)
  {
    if o.Some? {
      assert (h + [o.value])[|h|] == (h + [last])[|h|];
    }
  }

  lemma EventEndsAttempt(db: Db, e: Event, id: Id, reason: string)
    requires EventIsCurrent(db, e, id) && OutcomeAt(db, e, id) == Some(Counted(reason))
    ensures id in Step(db, e).rows
    ensures
      var next := Step(db, e).rows[id];
      next.status == if next.failureCount >= RetryLimit(reason) then InError else Idle
  {
    StepOnRow(db, e, id);
    CountedWrite(db.rows[id], OpOn(db, e.action, id).value, e.now);
  }
}
