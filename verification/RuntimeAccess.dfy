/** The two tables, and what every runtime service call answers. A service call is one transaction; its
    clock reading is a parameter. */
module RuntimeAccess {
  import opened Options
  import opened RuntimeRows
  import opened RuntimeProtocol

  datatype ServiceError = TargetNotFound(id: Id)

  /** target_runtime_access.py over the two repositories it holds. */
  class TargetRuntimeAccess {
    var targets: map<Id, TargetRow>
    var rows: map<Id, RuntimeRow>

    /** The foreign key of target_runtime_state. */
    ghost predicate Valid()
      reads this
    {
      rows.Keys <= targets.Keys
    }

    ghost function State(): Db
      reads this
    {
      Db(targets, rows)
    }

    constructor ()
      ensures State() == Db(map[], map[])
    {
      targets, rows := map[], map[];
    }

    method EnsureRuntimeState(id: Id, now: Time) returns (row: RuntimeRow)
      requires id in targets
      modifies this`rows
      ensures row == Ensured(old(State()), id, now)
      ensures rows == old(rows)[id := row]
    {
      if id in rows {
        return rows[id];
      }
      row := FreshRow(if targets[id].enabled && !targets[id].paused then Active else Stopped, now);
      rows := rows[id := row];
    }

    /** One conditional UPDATE by primary key: the patch is None where its WHERE clause does not match. */
    method Update(id: Id, patch: RuntimeRow -> Option<RuntimeRow>) returns (committed: Option<RuntimeRow>)
      modifies this`rows
      ensures committed == if id in old(rows) then patch(old(rows)[id]) else None
      ensures rows == if committed.Some? then old(rows)[id := committed.value] else old(rows)
    {
      committed := None;
      if id in rows {
        committed := patch(rows[id]);
        if committed.Some? {
          rows := rows[id := committed.value];
        }
      }
    }

    /** Full-row upsert. */
    method Save(id: Id, row: RuntimeRow)
      modifies this`rows
      ensures rows == old(rows)[id := row]
    {
      rows := rows[id := row];
    }
  }

  /** The answer of a call: an error, or the row it committed, if any. */
  ghost function Answer(db: Db, id: Id, op: RowOp, now: Time): Result<Option<RuntimeRow>, ServiceError> {
    if id !in db.targets then Err(TargetNotFound(id))
    else if (OnlyIfActive(op) && !db.targets[id].IsActive()) || (id !in db.rows && !EnsuresRow(op)) then Ok(None)
    else Ok(Attempt(Ensured(db, id, now), op, now))
  }

  /** The row a call without a condition leaves behind. */
  ghost function RowAnswer(db: Db, id: Id, op: RowOp, now: Time): Result<RuntimeRow, ServiceError> {
    if id !in db.targets then Err(TargetNotFound(id)) else Ok(RowStep(Ensured(db, id, now), op, now))
  }
}
