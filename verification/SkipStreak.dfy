/** The skip counter of a row summarises the row's history of skipped scans. */
module SkipStreak {
  import opened Options
  import opened RuntimeRows
  import opened RuntimeProtocol
  import opened ScanFailurePolicy
  import opened OwnerFencing
  import opened RowEffects
  import opened FailureStreak

  /** A committed skip counts; a success, a failure, a stop or a start clears; anything else leaves no trace. */
  function SkipOutcome(row: RuntimeRow, op: RowOp, now: Time): Option<Outcome> {
    if !Commits(row, op, now) then None
    else if Skips(op) then Some(Counted(op.skip.reason))
    else if Wipes(op) || Succeeds(op) || Fails(row, op) then Some(Cleared)
    else None
  }

  /** The skip decision was taken on this streak. */
  predicate SkipIsCurrent(row: RuntimeRow, d: SkipDecision) {
    d.streak == NextStreak(d.reason, row.skipReason, row.skipCount)
  }

  predicate SkipCallIsCurrent(row: RuntimeRow, op: RowOp, now: Time) {
    Skips(op) && Commits(row, op, now) ==> SkipIsCurrent(row, op.skip)
  }

  function SkipAt(db: Db, e: Event, id: Id): Option<Outcome> {
    if id !in db.rows || OpOn(db, e.action, id).None? then None
    else SkipOutcome(db.rows[id], OpOn(db, e.action, id).value, e.now)
  }

  /** The skip outcomes the first n events of a run leave for one target. */
  function SkipHistory(run: Run, n: nat, id: Id): seq<Outcome>
    requires n <= |run.events| && n < |run.states|
  {
    if n == 0 then []
    else Extended(SkipHistory(run, n - 1, id), SkipAt(run.states[n - 1], run.events[n - 1], id))
  }

  lemma SkipStep(h: seq<Outcome>, row: RuntimeRow, op: RowOp, now: Time)
    requires Summarises(h, row.skipReason, row.skipCount) && SkipCallIsCurrent(row, op, now)
    ensures
      var next := RowStep(row, op, now);
      Summarises(Extended(h, SkipOutcome(row, op, now)), next.skipReason, next.skipCount)
  {
    if Commits(row, op, now) {
      SkipReasonEffect(row, op, now);
      SkipCountEffect(row, op, now);
      if Skips(op) {
        SummaryExtends(h, row.skipReason, row.skipCount, op.skip.reason);
      }
    } else {
      RefusedChangesNothing(row, op, now);
    }
  }

  /** At point i of the run the owner held the row, and the skip was decided on the row as it was then. */
  ghost predicate SkipDecidedAt(run: Run, start: Time, i: nat, id: Id, owner: Owner, d: SkipDecision)
    requires run.Valid() && i <= |run.events|
  {
    && owner.startedAt <= ClockAt(start, run.events, i)
    && Holds(run.states[i], id, owner)
    && SkipIsCurrent(run.states[i].rows[id], d)
  }

  /** The event does not delete the target, and a skip it commits was decided on the row it writes, or, when guarded,
      at an earlier point at which its owner held the row. */
  ghost predicate SkipIsDecided(run: Run, start: Time, n: nat, id: Id)
    requires run.Valid() && n < |run.events|
  {
    var db, e := run.states[n], run.events[n];
    && e.action != Delete(id)
    && (id in db.rows && OpOn(db, e.action, id).Some? ==>
          var op := OpOn(db, e.action, id).value;
          || SkipCallIsCurrent(db.rows[id], op, e.now)
          || (op.GuardedSkip? && exists i: nat :: i <= n && SkipDecidedAt(run, start, i, id, op.owner, op.skip)))
  }

  ghost predicate AllSkipsDecided(run: Run, start: Time, id: Id)
    requires run.Valid()
  {
    forall n {:trigger SkipIsDecided(run, start, n, id)} :: 0 <= n < |run.events| ==> SkipIsDecided(run, start, n, id)
  }

  ghost predicate StartsUnskipped(run: Run, id: Id)
    requires |run.states| > 0
  {
    id in run.states[0].rows && run.states[0].rows[id].skipReason == "" && run.states[0].rows[id].skipCount == 0
  }

  /** Fencing makes an earlier skip decision a current one by the time its guarded write commits. */
  lemma DecidedSkipIsCurrent(run: Run, start: Time, n: nat, id: Id, op: RowOp, i: nat)
    requires run.Valid() && Timeline(start, run.events) && n < |run.events| && id in run.states[n].rows
    requires op.GuardedSkip? && i <= n && SkipDecidedAt(run, start, i, id, op.owner, op.skip)
    ensures SkipCallIsCurrent(run.states[n].rows[id], op, run.events[n].now)
  {
    if Commits(run.states[n].rows[id], op, run.events[n].now) {
      assert Holds(run.states[n], id, op.owner);
      OwnerSeesStableRow(run, start, i, n, n, id, op.owner);
    }
  }

  lemma SkipEvent(run: Run, start: Time, n: nat, id: Id)
    requires run.Valid() && Timeline(start, run.events) && n < |run.events| && id in run.states[n].rows
    requires SkipIsDecided(run, start, n, id) && OpOn(run.states[n], run.events[n].action, id).Some?
    ensures SkipCallIsCurrent(run.states[n].rows[id], OpOn(run.states[n], run.events[n].action, id).value,
                              run.events[n].now)
  {
    var row, op := run.states[n].rows[id], OpOn(run.states[n], run.events[n].action, id).value;
    if !SkipCallIsCurrent(row, op, run.events[n].now) {
      var i: nat :| i <= n && SkipDecidedAt(run, start, i, id, op.owner, op.skip);
      DecidedSkipIsCurrent(run, start, n, id, op, i);
    }
  }

  lemma EventSkip(db: Db, e: Event, id: Id, h: seq<Outcome>)
    requires id in db.rows && e.action != Delete(id)
    requires OpOn(db, e.action, id).Some? ==> SkipCallIsCurrent(db.rows[id], OpOn(db, e.action, id).value, e.now)
    requires Summarises(h, db.rows[id].skipReason, db.rows[id].skipCount)
    ensures id in Step(db, e).rows
    ensures
      var next := Step(db, e).rows[id];
      Summarises(Extended(h, SkipAt(db, e, id)), next.skipReason, next.skipCount)
  {
    StepOnRow(db, e, id);
    match OpOn(db, e.action, id)
    case None =>
    case Some(op) => SkipStep(h, db.rows[id], op, e.now);
  }

  /** Main result: at every point of every run in which skips are decided while their owner holds the row, the stored
      pair is the length of the latest same-reason run of skips since the last success, failure, stop or start. */
  lemma {:induction false} SkipsSummariseHistory(run: Run, start: Time, n: nat, id: Id)
    requires run.Valid() && Timeline(start, run.events) && n <= |run.events|
    requires StartsUnskipped(run, id) && AllSkipsDecided(run, start, id)
    ensures id in run.states[n].rows
    ensures
      var row := run.states[n].rows[id];
      Summarises(SkipHistory(run, n, id), row.skipReason, row.skipCount)
  {
    if n > 0 {
      var db, e := run.states[n - 1], run.events[n - 1];
      SkipsSummariseHistory(run, start, n - 1, id);
      assert SkipIsDecided(run, start, n - 1, id);
      if OpOn(db, e.action, id).Some? {
        SkipEvent(run, start, n - 1, id);
      }
      EventSkip(db, e, id, SkipHistory(run, n - 1, id));
      assert run.states[n] == Step(db, e);
    }
  }

  /** Main result: the k-th skip of a same-reason run carries the streak k, so it escalates exactly when k reaches the
      decision's limit. */
  lemma SkipEscalatesAtLimit(run: Run, start: Time, n: nat, id: Id, op: RowOp)
    requires run.Valid() && Timeline(start, run.events) && n < |run.events|
    requires StartsUnskipped(run, id) && AllSkipsDecided(run, start, id)
    requires id in run.states[n].rows && OpOn(run.states[n], run.events[n].action, id) == Some(op)
    requires Skips(op) && Commits(run.states[n].rows[id], op, run.events[n].now)
    ensures
      var k := RunLength(SkipHistory(run, n + 1, id), op.skip.reason);
      op.skip.streak == k && (op.skip.Escalate() <==> k >= op.skip.limit)
  {
    SkipsSummariseHistory(run, start, n, id);
    assert SkipIsDecided(run, start, n, id);
    SkipEvent(run, start, n, id);
    var h, row := SkipHistory(run, n, id), run.states[n].rows[id];
    SummaryExtends(h, row.skipReason, row.skipCount, op.skip.reason);
    assert SkipHistory(run, n + 1, id) == h + [Counted(op.skip.reason)];
  }
}
