/** target_monitoring_commands.py and target_registry_service.py: the calls that write the targets table, each
    performing exactly its protocol step. */
module MonitoringCommands {
  import opened Options
  import opened RuntimeRows
  import opened RuntimeProtocol
  import opened RuntimeAccess
  import RuntimeLifecycle

  class TargetMonitoringCommands {
    const access: TargetRuntimeAccess
    const runtime: RuntimeLifecycle.TargetRuntimeLifecycleService

    ghost predicate Valid() {
      runtime.access == access
    }

    constructor (access: TargetRuntimeAccess)
      ensures this.access == access && Valid()
    {
      this.access := access;
      this.runtime := new RuntimeLifecycle.TargetRuntimeLifecycleService(access);
    }

    method UpdateTargetStatus(id: Id, enabled: bool, paused: bool, now: Time)
      returns (r: Result<TargetRow, ServiceError>)
      requires Valid()
      modifies access
      ensures access.State() == Step(old(access.State()), Event(UpdateStatus(id, enabled, paused), now))
      ensures r == if id in old(access.targets) then Ok(access.targets[id]) else Err(TargetNotFound(id))
    {
      if id !in access.targets { return Err(TargetNotFound(id)); }
      var updated := access.targets[id].(enabled := enabled, paused := paused, updatedAt := now);
      access.targets := access.targets[id := updated];
      var _ := runtime.ResetTargetDesiredState(id, if enabled && !paused then Active else Stopped, now);
      return Ok(updated);
    }

    /** The cleaned-up names of the target are the details parameter. */
    method RestartTargetMonitoring(id: Id, details: string, now: Time) returns (r: Result<TargetRow, ServiceError>)
      requires Valid()
      modifies access
      ensures access.State() == Step(old(access.State()), Event(RestartMonitoring(id, details), now))
      ensures r == if id in old(access.targets) then Ok(access.targets[id]) else Err(TargetNotFound(id))
    {
      if id !in access.targets { return Err(TargetNotFound(id)); }
      var named := access.targets[id].(details := details, updatedAt := now);
      access.targets := access.targets[id := named];
      var updated := named.(enabled := true, paused := false, updatedAt := now);
      access.targets := access.targets[id := updated];
      var _ := runtime.RestartTargetRuntime(id, now);
      return Ok(updated);
    }

    method PauseTargetMonitoring(id: Id, now: Time) returns (r: Result<TargetRow, ServiceError>)
      requires Valid()
      modifies access
      ensures access.State() == Step(old(access.State()), Event(UpdateStatus(id, true, true), now))
      ensures r == if id in old(access.targets) then Ok(access.targets[id]) else Err(TargetNotFound(id))
    {
      r := UpdateTargetStatus(id, true, true, now);
    }

    /** Pauses every enabled, unpaused target, in any order; the answer is how many there were. */
    method PauseAllTargetMonitoring(now: Time) returns (count: nat)
      requires Valid()
      modifies access
      ensures access.State() == Step(old(access.State()), Event(PauseAll, now))
      ensures count == |ActiveIds(old(access.State()))|
    {
      ghost var before := access.State();
      var targets := set id | id in access.targets && access.targets[id].enabled && !access.targets[id].paused;
      assert targets == ActiveIds(before);
      count := |targets|;
      var todo := targets;
      while todo != {}
        invariant todo <= targets
        invariant PartlyPaused(before, access.State(), targets - todo, now)
        decreases todo
      {
        var id :| id in todo;
        PausedOne(before, access.State(), targets - todo, id, now);
        assert targets - (todo - {id}) == targets - todo + {id};
        var _ := PauseTargetMonitoring(id, now);
        todo := todo - {id};
      }
      assert targets - todo == targets;
      PausedAll(before, access.State(), now);
    }
  }

  /** The targets done are paused with their row reset; everything else is as before. */
  ghost predicate PartlyPaused(before: Db, db: Db, done: set<Id>, now: Time) {
    && done <= ActiveIds(before)
    && db.targets.Keys == before.targets.Keys
    && db.rows.Keys == before.rows.Keys + done
    && (forall id :: id in before.targets ==>
                       db.targets[id] ==
                       if id in done then PausedTarget(before.targets[id], now) else before.targets[id])
    && (forall id :: id in db.rows ==>
                       db.rows[id] == if id in done then FreshRow(Stopped, now) else before.rows[id])
  }

  lemma PausedOne(before: Db, db: Db, done: set<Id>, id: Id, now: Time)
    requires PartlyPaused(before, db, done, now) && id in ActiveIds(before) && id !in done
    ensures PartlyPaused(before, Step(db, Event(UpdateStatus(id, true, true), now)), done + {id}, now)
  {
    PauseStep(db, id, now);
  }

  lemma PauseStep(db: Db, id: Id, now: Time)
    requires id in db.targets && db.targets[id].IsActive()
    ensures Step(db, Event(UpdateStatus(id, true, true), now))
         == Db(db.targets[id := PausedTarget(db.targets[id], now)], db.rows[id := FreshRow(Stopped, now)])
  {
  }

  lemma PausedAll(before: Db, db: Db, now: Time)
    requires PartlyPaused(before, db, ActiveIds(before), now)
    ensures db == Step(before, Event(PauseAll, now))
  {
    var next := Step(before, Event(PauseAll, now));
    assert db.targets == next.targets;
    assert db.rows == next.rows;
  }

  class TargetRegistryService {
    const access: TargetRuntimeAccess

    constructor (access: TargetRuntimeAccess)
      ensures this.access == access
    {
      this.access := access;
    }

    /** The earliest created target of a kind and scope. */
    method FindByKindScope(kind: TargetKind, scopeId: string) returns (found: Option<Id>)
      ensures found.None? ==> forall id :: id in access.targets ==> !access.targets[id].InScope(kind, scopeId)
      ensures found.Some? ==>
                && found.value in access.targets
                && access.targets[found.value].InScope(kind, scopeId)
                && forall id :: id in access.targets && access.targets[id].InScope(kind, scopeId) ==>
                                  access.targets[found.value].createdAt <= access.targets[id].createdAt
    {
      found := None;
      var matches := set id | id in access.targets && access.targets[id].InScope(kind, scopeId);
      var todo := matches;
      while todo != {}
        invariant todo <= matches
        invariant found.None? ==> todo == matches
        invariant found.Some? ==>
                    found.value in matches
                    && forall id :: id in matches - todo ==>
                                      access.targets[found.value].createdAt <= access.targets[id].createdAt
        decreases todo
      {
        var id :| id in todo;
        todo := todo - {id};
        if found.None? || access.targets[id].createdAt < access.targets[found.value].createdAt {
          found := Some(id);
        }
      }
      assert matches - todo == matches;
      assert forall id :: id in access.targets && access.targets[id].InScope(kind, scopeId) ==> id in matches;
    }

    /** Both upserts: freshId is the new UUID, details the names and URLs of the rebuilt descriptor. */
    method UpsertTarget(kind: TargetKind, scopeId: string, freshId: Id, details: string, now: Time) returns (id: Id)
      requires freshId !in access.targets
      modifies access
      ensures access.State() == Step(old(access.State()), Event(Upsert(id, kind, scopeId, details), now))
      ensures if id in old(access.targets) then old(access.targets)[id].InScope(kind, scopeId)
              else id == freshId
                   && forall t :: t in old(access.targets) ==> !old(access.targets)[t].InScope(kind, scopeId)
    {
      var existing := FindByKindScope(kind, scopeId);
      var target;
      if existing.Some? {
        id := existing.value;
        target := access.targets[id].(details := details, updatedAt := now);
      } else {
        id := freshId;
        target := TargetRow(kind, scopeId, details, true, true, now, now);
      }
      access.targets := access.targets[id := target];
      var _ := access.EnsureRuntimeState(id, now);
    }

    /** The foreign key deletes the runtime row with its target. */
    method DeleteTarget(id: Id) returns (r: Result<(), ServiceError>)
      requires access.Valid()
      modifies access
      ensures access.State() == Step(old(access.State()), Event(Delete(id), 0))
      ensures r == if id in old(access.targets) then Ok(()) else Err(TargetNotFound(id))
    {
      if id !in access.targets {
        assert access.targets - {id} == access.targets && access.rows - {id} == access.rows;
        return Err(TargetNotFound(id));
      }
      access.targets := access.targets - {id};
      access.rows := access.rows - {id};
      return Ok(());
    }
  }
}
