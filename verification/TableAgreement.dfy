/** The targets table and the runtime table agree in every reachable state. */
module TableAgreement {
  import opened Options
  import opened RuntimeRows
  import opened RuntimeProtocol

  /** A row is wanted ACTIVE exactly when its target is enabled and not paused. */
  predicate RowAgrees(target: TargetRow, row: RuntimeRow) {
    row.desired == Active <==> target.IsActive()
  }

  /** Every target has a runtime row and no row is orphaned; the rows agree; a (kind, scope) has one target. */
  ghost predicate Agrees(db: Db) {
    && db.rows.Keys == db.targets.Keys
    && (forall id :: id in db.targets ==> RowAgrees(db.targets[id], db.rows[id]))
    && (forall a, b :: a in db.targets && b in db.targets && SameScope(db.targets[a], db.targets[b]) ==> a == b)
  }

  predicate SameScope(a: TargetRow, b: TargetRow) {
    a.InScope(b.kind, b.scopeId)
  }

  /** A registration reuses the target of its scope when there is one and a fresh id otherwise; the two
      lifecycle resets are reached only through the monitoring commands, which write both tables. */
  ghost predicate Issued(db: Db, a: Action) {
    match a
    case OnRow(_, op) => !op.ResetTo? && !op.RestartRuntime?
    case Upsert(id, kind, scopeId, _) =>
      if id in db.targets then db.targets[id].InScope(kind, scopeId)
      else forall t :: t in db.targets ==> !db.targets[t].InScope(kind, scopeId)
    case _ => true
  }

  /** Only the two lifecycle resets change what a row is wanted to be. */
  lemma DesiredIsKept(row: RuntimeRow, op: RowOp, now: Time)
    requires !op.ResetTo? && !op.RestartRuntime?
    ensures RowStep(row, op, now).desired == row.desired
  {
  }

  lemma OnRowAgrees(db: Db, id: Id, op: RowOp, now: Time)
    requires Agrees(db) && !op.ResetTo? && !op.RestartRuntime?
    ensures Agrees(OnRowStep(db, id, op, now))
  {
    if id in db.rows {
      DesiredIsKept(db.rows[id], op, now);
    }
  }

  lemma SweepKeepsDesired(row: RuntimeRow, staleAfter: Time, now: Time)
    ensures SweptRunning(row, staleAfter, now).desired == row.desired
    ensures SweptQueued(row, staleAfter, now).desired == row.desired
  {
  }

  lemma SweepAgrees(db: Db, e: Event)
    requires Agrees(db) && (e.action.SweepRunning? || e.action.SweepQueued?)
    ensures Agrees(Step(db, e))
  {
    SameDesiredAgrees(db, Step(db, e).rows, e.action.staleAfter, e.now);
  }

  lemma SameDesiredAgrees(db: Db, rows: map<Id, RuntimeRow>, staleAfter: Time, now: Time)
    requires Agrees(db) && rows.Keys == db.rows.Keys
    requires forall id :: id in rows ==>
                            rows[id] == SweptRunning(db.rows[id], staleAfter, now)
                            || rows[id] == SweptQueued(db.rows[id], staleAfter, now)
    ensures Agrees(Db(db.targets, rows))
  {
    forall id | id in rows ensures rows[id].desired == db.rows[id].desired {
      SweepKeepsDesired(db.rows[id], staleAfter, now);
    }
  }

  lemma UpsertAgrees(db: Db, e: Event)
    requires Agrees(db) && e.action.Upsert? && Issued(db, e.action)
    ensures Agrees(Step(db, e))
  {
    assert Step(db, e) == Upserted(db, e.action.id, e.action.kind, e.action.scopeId, e.action.details, e.now);
  }

  lemma ReplacedAgrees(db: Db, id: Id, target: TargetRow, row: RuntimeRow)
    requires Agrees(db) && id in db.targets && SameScope(target, db.targets[id]) && RowAgrees(target, row)
    ensures Agrees(Db(db.targets[id := target], db.rows[id := row]))
  {
  }

  /** A command that writes both tables: the target's switches and the matching lifecycle reset. */
  lemma SwitchAgrees(db: Db, id: Id, target: TargetRow, op: RowOp, now: Time)
    requires Agrees(db) && id in db.targets && SameScope(target, db.targets[id])
    requires op == RestartRuntime || op.ResetTo?
    requires target.IsActive() <==> (op == RestartRuntime || op == ResetTo(Active))
    ensures Agrees(OnRowStep(db.(targets := db.targets[id := target]), id, op, now))
  {
    SwitchedRow(db.rows[id], op, now);
    ReplacedAgrees(db, id, target, RowStep(db.rows[id], op, now));
  }

  lemma SwitchedRow(row: RuntimeRow, op: RowOp, now: Time)
    requires op == RestartRuntime || op.ResetTo?
    ensures RowStep(row, op, now).desired == Active <==> op == RestartRuntime || op == ResetTo(Active)
  {
  }

  lemma PauseAllAgrees(db: Db, now: Time)
    requires Agrees(db)
    ensures Agrees(Step(db, Event(PauseAll, now)))
  {
    var next := Step(db, Event(PauseAll, now));
    assert next.rows.Keys == next.targets.Keys;
    forall a, b | a in next.targets && b in next.targets && SameScope(next.targets[a], next.targets[b]) ensures a == b {
      assert SameScope(db.targets[a], db.targets[b]);
    }
  }

  lemma StepAgrees(db: Db, e: Event)
    requires Agrees(db) && Issued(db, e.action)
    ensures Agrees(Step(db, e))
  {
    match e.action
    case OnRow(id, op) => OnRowAgrees(db, id, op, e.now);
    case SweepRunning(_) => SweepAgrees(db, e);
    case SweepQueued(_) => SweepAgrees(db, e);
    case Upsert(_, _, _, _) => UpsertAgrees(db, e);
    case UpdateStatus(id, enabled, paused) =>
      if id in db.targets {
        SwitchAgrees(db, id, db.targets[id].(enabled := enabled, paused := paused, updatedAt := e.now),
                     ResetTo(if enabled && !paused then Active else Stopped), e.now);
      }
    case RestartMonitoring(id, details) =>
      if id in db.targets {
        SwitchAgrees(db, id, db.targets[id].(details := details, enabled := true, paused := false, updatedAt := e.now),
                     RestartRuntime, e.now);
      }
    case PauseAll => PauseAllAgrees(db, e.now);
    case EditDetails(_, _) =>
    case Delete(_) =>
  }

  /** Main result: agreement holds in every state of every run that starts in agreement, an empty database
      for one. */
  lemma {:induction false} AgreementIsInvariant(run: Run, n: nat)
    requires run.Valid() && n <= |run.events| && Agrees(run.states[0])
    requires forall k :: 0 <= k < |run.events| ==> Issued(run.states[k], run.events[k].action)
    ensures Agrees(run.states[n])
  {
    if n > 0 {
      AgreementIsInvariant(run, n - 1);
      StepAgrees(run.states[n - 1], run.events[n - 1]);
    }
  }

  /** A stopped target is never admitted to a scan: in an agreeing state, an enqueue or a claim commits only
      for a target that is enabled and not paused. */
  lemma OnlyActiveTargetsAreAdmitted(db: Db, id: Id, op: RowOp, now: Time)
    requires Agrees(db) && id in db.rows
    requires (op.MarkQueued? || op.Claim?) && Attempt(db.rows[id], op, now).Some?
    ensures db.targets[id].IsActive()
  {
    assert RowAgrees(db.targets[id], db.rows[id]);
  }

  /** After pause-all no target is active and every row of a formerly active target is idle, ownerless and
      without a request; all other rows are untouched. */
  lemma PauseAllStopsEverything(db: Db, now: Time)
    requires Agrees(db)
    ensures
      var next := Step(db, Event(PauseAll, now));
      && ActiveIds(next) == {}
      && next.rows.Keys == db.rows.Keys
      && forall id :: id in db.rows ==>
                        next.rows[id] == if db.targets[id].IsActive() then FreshRow(Stopped, now) else db.rows[id]
    ensures
      var next := Step(db, Event(PauseAll, now));
      forall id, op: RowOp, at ::
        id in next.rows && (op.MarkQueued? || op.Claim?) ==> Attempt(next.rows[id], op, at).None?
  {
    var next := Step(db, Event(PauseAll, now));
    forall id | id in next.targets ensures !next.targets[id].IsActive() {
    }
    PauseAllAgrees(db, now);
    forall id, op: RowOp, at | id in next.rows && (op.MarkQueued? || op.Claim?)
      ensures Attempt(next.rows[id], op, at).None?
    {
      assert next.rows[id].desired == Stopped;
    }
  }
}
