/** The atomic task service: database, wheels and operation log changed in place, step by step, with
    undo on failure. Its methods refine `ServiceSpec.Handle` and `RepairSpec.Repair`. */
module TaskServices {
  import opened TaskModel
  import W = WheelSpec
  import opened LevelSpec
  import opened ServiceSpec
  import opened RepairSpec
  import opened MultiLevels

  class AtomicTaskService {
    var db: Db
    var log: seq<LogEntry>
    const timeWheel: MultiLevelTimeWheel

    constructor (timeWheel: MultiLevelTimeWheel)
      ensures db == map[] && log == [] && this.timeWheel == timeWheel
    {
      db, log := map[], [];
      this.timeWheel := timeWheel;
    }

    ghost function State(): Service
      reads this, timeWheel
    {
      Service(db, timeWheel.levels, log)
    }

    // ---------- The closures ----------

    method RunDbOp(g: Saga, fails: bool) returns (ok: bool)
      modifies this`db
      ensures ok == (!fails && DbOp(old(db), g).Some?)
      ensures db == if ok then DbOp(old(db), g).value else old(db)
    {
      if fails {
        return false;
      }
      match g {
        case Create(row) =>
          if g.Id() in db {
            return false;
          }
          db := db[g.Id() := row];
        case Delete(_) => db := db - {g.Id()};
        case Enable(row) => UpdateStatus(g.Id(), true, row.paused);
        case Disable(row) => UpdateStatus(g.Id(), false, row.paused);
        case Pause(row) => UpdateStatus(g.Id(), row.enabled, true);
        case Resume(row) => UpdateStatus(g.Id(), row.enabled, false);
        case Update(row, edit) => db := db[g.Id() := row.(task := Apply(row.task, edit))];
      }
      return true;
    }

    method UpdateStatus(id: string, enabled: bool, paused: bool)
      modifies this`db
      ensures db == SetStatus(old(db), id, enabled, paused)
    {
      if id in db {
        db := db[id := db[id].(enabled := enabled, paused := paused)];
      }
    }

    method RunWheelOp(g: Saga, now: int, stale: bool) returns (ok: bool)
      modifies timeWheel`levels
      ensures (ok, timeWheel.levels) == WheelOp(old(timeWheel.levels), g, now, stale)
    {
      var err: Option<Error> := None;
      match g {
        case Create(row) =>
          if row.enabled {
            err := timeWheel.AddTask(Some(row.task), now, stale);
          }
        case Delete(_) => err := timeWheel.RemoveTask(g.Id());
        case Enable(row) =>
          if !row.paused {
            err := timeWheel.AddTask(Some(row.task), now, stale);
          }
        case Disable(_) => err := timeWheel.RemoveTask(g.Id());
        case Pause(_) => err := timeWheel.PauseTask(g.Id());
        case Resume(row) =>
          if row.enabled {
            err := timeWheel.ResumeTask(g.Id(), now);
            if err.Some? {
              FailedResumeKeepsLevels(old(timeWheel.levels), g.Id(), now);
              err := timeWheel.AddTask(Some(row.task), now, stale);
            }
          }
        case Update(row, edit) =>
          if row.enabled && !row.paused {
            err := timeWheel.RemoveTask(g.Id());
            err := timeWheel.AddTask(Some(Apply(row.task, edit)), now, stale);
          }
      }
      return err.None?;
    }

    static lemma FailedResumeKeepsLevels(l: Levels, id: string, now: int)
      ensures LookupIn(l, id).Err? ==> ResumeStep(l, id, now) == l
    {
    }

    method RunRollback(g: Saga, fails: bool) returns (ok: bool)
      modifies this`db
      ensures ok == !fails
      ensures db == if ok then RollbackDb(old(db), g) else old(db)
    {
      if fails {
        return false;
      }
      match g {
        case Create(_) => db := db - {g.Id()};
        case Delete(row) => db := db[g.Id() := row];
        case Enable(row) => UpdateStatus(g.Id(), false, row.paused);
        case Disable(row) => UpdateStatus(g.Id(), true, row.paused);
        case Pause(row) => UpdateStatus(g.Id(), row.enabled, false);
        case Resume(row) => UpdateStatus(g.Id(), row.enabled, true);
        case Update(row, _) => db := db[g.Id() := row];
      }
      return true;
    }

    /** Sets the status of the newest log entry, unless the repository call fails. */
    method SetLastStatus(status: Status, fails: bool)
      requires log != []
      modifies this`log
      ensures log == if fails then old(log) else old(log)[..|old(log)| - 1] + [old(log)[|old(log)| - 1].(status := status)]
    {
      if !fails {
        var n := |log| - 1;
        log := log[..n] + [log[n].(status := status)];
      }
    }

    /** Log as pending, change the database, change the wheel, undo the database on failure. */
    method ExecuteAtomically(g: Saga, f: Faults, now: int, stale: bool) returns (o: Outcome)
      modifies this, timeWheel`levels
      ensures (State(), o) == ServiceSpec.Execute(old(State()), g, f, now, stale)
    {
      hide ServiceSpec.DbOp, ServiceSpec.WheelOp, ServiceSpec.RollbackDb;
      if f.logCreate {
        return NotLogged;
      }
      log := log + [LogEntry(g.Id(), g.Kind(), Status.Pending)];
      var ok := RunDbOp(g, f.dbOp);
      if !ok {
        SetLastStatus(Failed, f.logUpdate);
        return DbFailed;
      }
      ok := RunWheelOp(g, now, stale);
      if !ok {
        var undone := RunRollback(g, f.rollback);
        if !undone {
          SetLastStatus(RollbackFailed, f.logUpdate);
          return Stuck;
        }
        SetLastStatus(Failed, f.logUpdate);
        return RolledBack;
      }
      SetLastStatus(Completed, f.logUpdate);
      return Done;
    }

    // ---------- Requests ----------

    method Create(task: Task, enabled: bool, generated: string, f: Faults, now: int, stale: bool) returns (o: Outcome)
      modifies this, timeWheel`levels
      ensures (State(), o) == Handle(old(State()), CreateReq(task, enabled, generated), f, now, stale)
    {
      hide ServiceSpec.Execute;
      var id := if task.id == "" then generated else task.id;
      if !f.read && id in db {
        return Refused;
      }
      o := ExecuteAtomically(Saga.Create(Row(task.(id := id, hasRun := true), enabled, false)), f, now, stale);
    }

    method Delete(id: string, f: Faults, now: int, stale: bool) returns (o: Outcome)
      modifies this, timeWheel`levels
      ensures (State(), o) == Handle(old(State()), DeleteReq(id), f, now, stale)
    {
      hide ServiceSpec.Execute;
      if f.read || id !in db {
        return Refused;
      }
      o := ExecuteAtomically(Saga.Delete(db[id]), f, now, stale);
    }

    method Enable(id: string, f: Faults, now: int, stale: bool) returns (o: Outcome)
      modifies this, timeWheel`levels
      ensures (State(), o) == Handle(old(State()), EnableReq(id), f, now, stale)
    {
      hide ServiceSpec.Execute;
      if f.read || id !in db {
        return Refused;
      }
      if db[id].enabled {
        return Unchanged;
      }
      o := ExecuteAtomically(Saga.Enable(db[id]), f, now, stale);
    }

    method Disable(id: string, f: Faults, now: int, stale: bool) returns (o: Outcome)
      modifies this, timeWheel`levels
      ensures (State(), o) == Handle(old(State()), DisableReq(id), f, now, stale)
    {
      hide ServiceSpec.Execute;
      if f.read || id !in db {
        return Refused;
      }
      if !db[id].enabled {
        return Unchanged;
      }
      o := ExecuteAtomically(Saga.Disable(db[id]), f, now, stale);
    }

    method Pause(id: string, f: Faults, now: int, stale: bool) returns (o: Outcome)
      modifies this, timeWheel`levels
      ensures (State(), o) == Handle(old(State()), PauseReq(id), f, now, stale)
    {
      hide ServiceSpec.Execute;
      if f.read || id !in db {
        return Refused;
      }
      if db[id].paused {
        return Unchanged;
      }
      o := ExecuteAtomically(Saga.Pause(db[id]), f, now, stale);
    }

    method Resume(id: string, f: Faults, now: int, stale: bool) returns (o: Outcome)
      modifies this, timeWheel`levels
      ensures (State(), o) == Handle(old(State()), ResumeReq(id), f, now, stale)
    {
      hide ServiceSpec.Execute;
      if f.read || id !in db {
        return Refused;
      }
      if !db[id].paused {
        return Unchanged;
      }
      o := ExecuteAtomically(Saga.Resume(db[id]), f, now, stale);
    }

    method Update(id: string, edit: Edit, f: Faults, now: int, stale: bool) returns (o: Outcome)
      modifies this, timeWheel`levels
      ensures (State(), o) == Handle(old(State()), UpdateReq(id, edit), f, now, stale)
    {
      hide ServiceSpec.Execute;
      if f.read || id !in db {
        return Refused;
      }
      o := ExecuteAtomically(Saga.Update(db[id], edit), f, now, stale);
    }

    // ---------- Repair ----------

    /** The reconciliation pass over one page of enabled rows; without the page nothing happens. */
    method RepairInconsistentState(page: Option<seq<Row>>, now: int, stale: nat -> bool) returns (ok: bool, ghost listed: seq<string>)
      requires page.Some? ==> IsPage(db, page.value)
      modifies timeWheel`levels
      ensures ok <==> page.Some?
      ensures ok ==> IsListing(old(timeWheel.levels), listed)
      ensures timeWheel.levels == if ok then Repair(old(timeWheel.levels), page.value, listed, now, stale) else old(timeWheel.levels)
    {
      listed := [];
      ok := page.Some?;
      if !ok {
        return;
      }
      listed := RepairPage(page.value, now, stale);
    }

    method RepairPage(page: seq<Row>, now: int, stale: nat -> bool) returns (ghost listed: seq<string>)
      requires IsPage(db, page)
      modifies timeWheel`levels
      ensures IsListing(old(timeWheel.levels), listed)
      ensures timeWheel.levels == Repair(old(timeWheel.levels), page, listed, now, stale)
    {
      var twTasks := timeWheel.GetAllTasks();
      listed := twTasks;
      var twTaskMap := set id | id in twTasks;
      for i := 0 to |page|
        invariant timeWheel.levels == AddMissing(old(timeWheel.levels), page[..i], twTaskMap, now, stale)
      {
        if !page[i].paused && page[i].task.id !in twTaskMap {
          var _ := timeWheel.AddTask(Some(page[i].task), now, stale(i));
        }
        assert page[..i + 1][..i] == page[..i];
      }
      assert page[..|page|] == page;
      ghost var added := timeWheel.levels;
      var dbTaskMap := set row | row in page :: row.task.id;
      assert dbTaskMap == Ids(page);
      for i := 0 to |twTasks|
        invariant timeWheel.levels == RemoveOrphans(added, twTasks[..i], dbTaskMap)
      {
        if twTasks[i] !in dbTaskMap {
          var _ := timeWheel.RemoveTask(twTasks[i]);
        }
        assert twTasks[..i + 1][..i] == twTasks[..i];
      }
      assert twTasks[..|twTasks|] == twTasks;
    }
  }
}
