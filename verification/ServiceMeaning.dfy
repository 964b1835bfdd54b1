/** What the requests of the task service change when they are done, said without the functions that
    compute it. */
module ServiceMeaning {
  import opened TaskModel
  import W = WheelSpec
  import opened LevelSpec
  import opened ServiceSpec
  import opened FlagSpec
  import WheelMeaning

  // ---------- Outcomes ----------

  function IdOf(q: Request): string {
    match q
    case CreateReq(t, _, generated) => if t.id != "" then t.id else generated
    case DeleteReq(id) => id
    case EnableReq(id) => id
    case DisableReq(id) => id
    case PauseReq(id) => id
    case ResumeReq(id) => id
    case UpdateReq(id, _) => id
  }

  /** The request asks for what is already so. */
  predicate AlreadySo(row: Row, q: Request) {
    match q
    case EnableReq(_) => row.enabled
    case DisableReq(_) => !row.enabled
    case PauseReq(_) => row.paused
    case ResumeReq(_) => !row.paused
    case _ => false
  }

  /** Requests that are refused, that have nothing to do, and that fail in the database. */
  lemma EarlyOutcomes(s: Service, q: Request, f: Faults, now: int, stale: bool)
    ensures var (s', o) := Handle(s, q, f, now, stale);
            var known := !f.read && IdOf(q) in s.db;
            && (o == Refused <==> known == q.CreateReq?)
            && (o == Unchanged <==> known && !q.CreateReq? && AlreadySo(s.db[IdOf(q)], q))
            && (o == NotLogged <==> known != q.CreateReq? && (known ==> !AlreadySo(s.db[IdOf(q)], q)) && f.logCreate)
            && (o == DbFailed <==> known != q.CreateReq? && (known ==> !AlreadySo(s.db[IdOf(q)], q)) && !f.logCreate
                                   && (f.dbOp || (q.CreateReq? && IdOf(q) in s.db)))
            && (o in {Refused, Unchanged, NotLogged} ==> s' == s)
            && (o == DbFailed ==> s'.db == s.db && s'.levels == s.levels)
  {
    hide WheelOp, RollbackDb;
  }

  // ---------- Tasks in wheels ----------

  /** The wheel of a priority. */
  function WheelOf(priority: int): Level {
    if priority < 1 then High else if priority < 2 then Normal else Low
  }

  /** The task is in the wheel of its priority and in no other, with this definition and nothing run so far. */
  ghost predicate EnteredAs(l: Levels, t: Task, now: int, stale: bool) {
    && (forall x: Level :: l.Has(x, t.id) <==> x == WheelOf(t.priority))
    && l.Has(WheelOf(t.priority), t.id)
    && var e := l.At(WheelOf(t.priority)).view[t.id];
       WheelMeaning.KeptAs(t, e.task) && WheelMeaning.IsNew(e, e.task, now, stale, ConfigOf(WheelOf(t.priority)))
  }

  /** Nothing about any other task has changed. */
  ghost predicate OthersKept(s: Service, s': Service, id: string) {
    && (forall x :: x != id ==> (x in s'.db <==> x in s.db))
    && (forall x <- s.db :: x != id ==> s'.db[x] == s.db[x])
    && (forall x :: x != id ==> SameEntries(s.levels, s'.levels, x))
    && (forall x: Level :: s'.levels.At(x).running == s.levels.At(x).running && s'.levels.At(x).cursor == s.levels.At(x).cursor)
  }

  lemma CursorsStay(l: Levels, g: Saga, now: int, stale: bool, x: Level)
    ensures WheelOp(l, g, now, stale).1.At(x).cursor == l.At(x).cursor
  {
  }

  lemma DoneKeepsOthers(s: Service, g: Saga, f: Faults, now: int, stale: bool)
    requires RowsOk(s.db) && Fresh(s, g)
    ensures OthersKept(s, Execute(s, g, f, now, stale).0, g.Id())
  {
    var s' := Execute(s, g, f, now, stale).0;
    CleanFailureUndoes(s, g, f, now, stale);
    DbOpKeepsRowsOk(s.db, g);
    forall x | x != g.Id() ensures SameEntries(s.levels, s'.levels, x) {
      WheelOpKeepsEntries(s.levels, g, now, stale, x);
    }
    forall x: Level ensures s'.levels.At(x).running == s.levels.At(x).running && s'.levels.At(x).cursor == s.levels.At(x).cursor {
      WheelOpKeepsRunning(s.levels, g, now, stale, x);
      CursorsStay(s.levels, g, now, stale, x);
      RemoveKeepsRunning(s.levels, g.Id(), x);
      RemoveKeepsCursor(s.levels, g.Id(), x);
    }
    hide WheelOp, DbOp, RemoveStep;
  }

  lemma RemoveKeepsCursor(l: Levels, id: string, x: Level)
    ensures RemoveStep(l, id).At(x).cursor == l.At(x).cursor
  {
  }

  /** Every request leaves the rows and the entries of all other tasks alone, however it ends. */
  lemma RequestsKeepOthers(s: Service, q: Request, f: Faults, now: int, stale: bool)
    requires RowsOk(s.db) && (q.CreateReq? ==> q.generated != "")
    ensures OthersKept(s, Handle(s, q, f, now, stale).0, IdOf(q))
  {
    var plan := Plan(s, q, f).1;
    if plan.Some? {
      PlanIsFresh(s, q, f);
      assert plan.value.Id() == IdOf(q);
      DoneKeepsOthers(s, plan.value, f, now, stale);
    }
    hide Execute, OthersKept;
    if plan.None? {
      SameIsKept(s, IdOf(q));
    }
  }

  lemma SameIsKept(s: Service, id: string)
    ensures OthersKept(s, s, id)
  {
  }

  lemma AddedIsEntered(l: Levels, t: Task, now: int, stale: bool)
    requires TryAdd(l, t, now, stale).0 && !l.InWheel(t.id)
    ensures EnteredAs(TryAdd(l, t, now, stale).1, t, now, stale)
  {
    var l' := TryAdd(l, t, now, stale).1;
    WheelMeaning.AddMeans(l.At(WheelOf(t.priority)), Some(t), now, stale, ConfigOf(WheelOf(t.priority)));
    forall x: Level ensures l'.Has(x, t.id) <==> x == WheelOf(t.priority) {
      assert !l.Has(x, t.id);
    }
  }

  // ---------- The seven requests ----------

  /** A created task has its row, not paused, and is in its wheel exactly if it is enabled. */
  lemma CreateMeans(s: Service, t: Task, enabled: bool, generated: string, f: Faults, now: int, stale: bool)
    requires Consistent(s) && generated != ""
    requires Handle(s, CreateReq(t, enabled, generated), f, now, stale).1 == Done
    ensures var s' := Handle(s, CreateReq(t, enabled, generated), f, now, stale).0;
            var id := if t.id == "" then generated else t.id;
            && id !in s.db && id in s'.db && s'.db[id].enabled == enabled && !s'.db[id].paused
            && s'.db[id].task == t.(id := id, hasRun := true)
            && (if enabled then EnteredAs(s'.levels, s'.db[id].task, now, stale) else !s'.levels.InWheel(id))
  {
    var row := NewRow(CreateReq(t, enabled, generated));
    assert Agrees(s, row.task.id);
    if enabled {
      AddedIsEntered(s.levels, row.task, now, stale);
    }
    hide TryAdd, EnteredAs, RollbackDb, Agrees;
  }

  /** A deleted task has no row and is in no wheel. */
  lemma DeleteMeans(s: Service, id: string, f: Faults, now: int, stale: bool)
    requires Consistent(s) && Handle(s, DeleteReq(id), f, now, stale).1 == Done
    ensures var s' := Handle(s, DeleteReq(id), f, now, stale).0;
            id in s.db && id !in s'.db && !s'.levels.InWheel(id)
  {
    assert Agrees(s, id);
    RemoveClears(s.levels, id, id);
    hide RemoveStep, LookupIn, RollbackDb;
  }

  /** An enabled task keeps its row but for the flag, and is in its wheel exactly if it is not paused. */
  lemma EnableMeans(s: Service, id: string, f: Faults, now: int, stale: bool)
    requires Consistent(s) && Handle(s, EnableReq(id), f, now, stale).1 == Done
    ensures var s' := Handle(s, EnableReq(id), f, now, stale).0;
            && id in s.db && !s.db[id].enabled && id in s'.db && s'.db[id] == s.db[id].(enabled := true)
            && (if s.db[id].paused then !s'.levels.InWheel(id) else EnteredAs(s'.levels, s.db[id].task, now, stale))
  {
    assert Agrees(s, id);
    if id in s.db && !s.db[id].paused && !s.db[id].enabled {
      WheelOpSucceedsIff(s, Enable(s.db[id]), now, stale);
      if TryAdd(s.levels, s.db[id].task, now, stale).0 {
        AddedIsEntered(s.levels, s.db[id].task, now, stale);
      }
    }
    hide TryAdd, EnteredAs, RollbackDb;
  }

  /** A disabled task keeps its row but for the flag, and is in no wheel. */
  lemma DisableMeans(s: Service, id: string, f: Faults, now: int, stale: bool)
    requires Consistent(s) && Handle(s, DisableReq(id), f, now, stale).1 == Done
    ensures var s' := Handle(s, DisableReq(id), f, now, stale).0;
            id in s.db && s.db[id].enabled && id in s'.db && s'.db[id] == s.db[id].(enabled := false) && !s'.levels.InWheel(id)
  {
    assert Agrees(s, id);
    RemoveClears(s.levels, id, id);
    hide RemoveStep, LookupIn, RollbackDb;
  }

  /** A paused task keeps its row and its entry but for the two flags. */
  lemma PauseMeans(s: Service, id: string, f: Faults, now: int, stale: bool)
    requires Consistent(s) && Handle(s, PauseReq(id), f, now, stale).1 == Done
    ensures var s' := Handle(s, PauseReq(id), f, now, stale).0;
            && id in s.db && !s.db[id].paused && id in s'.db && s'.db[id] == s.db[id].(paused := true)
            && s.levels.InWheel(id)
            && forall x: Level :: (s'.levels.Has(x, id) <==> s.levels.Has(x, id)) &&
                 (s.levels.Has(x, id) ==> s'.levels.At(x).view[id] == s.levels.At(x).view[id].(paused := true))
  {
    assert Agrees(s, id);
    LookupFinds(s.levels, id);
    assert s.levels.InWheel(id) ==> s.levels.Has(Target(s.levels, id), id);
    hide RollbackDb, Target;
  }

  /** A resumed task keeps its row but for the flag. If it is enabled, it is in a wheel: a paused entry is due
      one interval later, one that is not paused stays as it is, and without an entry it is entered. */
  lemma ResumeMeans(s: Service, id: string, f: Faults, now: int, stale: bool)
    requires Consistent(s) && Handle(s, ResumeReq(id), f, now, stale).1 == Done
    requires forall x: Level :: StateOk(s.levels.At(x), x)
    ensures var s' := Handle(s, ResumeReq(id), f, now, stale).0;
            && id in s.db && s.db[id].paused && id in s'.db && s'.db[id] == s.db[id].(paused := false)
            && (!s.db[id].enabled ==> s'.levels == s.levels)
            && (s.db[id].enabled && !s.levels.InWheel(id) ==> EnteredAs(s'.levels, s.db[id].task, now, stale))
            && (s.db[id].enabled && s.levels.InWheel(id) ==>
                  forall x: Level :: (s'.levels.Has(x, id) <==> s.levels.Has(x, id)) &&
                    (s.levels.Has(x, id) ==> Resumed(s.levels.At(x).view[id], s'.levels.At(x).view[id], now)))
  {
    assert Agrees(s, id);
    LookupFinds(s.levels, id);
    assert s.levels.InWheel(id) ==> s.levels.Has(Target(s.levels, id), id);
    if !s.levels.InWheel(id) && id in s.db {
      if TryAdd(s.levels, s.db[id].task, now, stale).0 {
        AddedIsEntered(s.levels, s.db[id].task, now, stale);
      }
    }
    if s.levels.InWheel(id) {
      var x := Target(s.levels, id);
      assert W.EntryOk(id, s.levels.At(x).view[id], ConfigOf(x));
      NormalizeYieldsNormal(Some(s.levels.At(x).view[id].task));
    }
    hide RollbackDb, Target, TryAdd, EnteredAs;
  }

  predicate StateOk(s: W.WheelState, x: Level) {
    W.StateOk(s, ConfigOf(x))
  }

  predicate Resumed(e: W.Entry, e': W.Entry, now: int) {
    if e.paused then e' == e.(paused := false, runAt := now + e.task.interval) else e' == e
  }

  /** The six fields of a task that an update can change. */
  predicate Edited(t: Task, edit: Edit, t': Task) {
    && t'.id == t.id && t'.hasRun == t.hasRun
    && t'.mode == (match edit.mode case Some(m) => m case None => t.mode)
    && t'.interval == (match edit.interval case Some(i) => i case None => t.interval)
    && t'.times == (match edit.times case Some(n) => n case None => t.times)
    && t'.priority == (match edit.priority case Some(p) => p case None => t.priority)
    && t'.forDuration == (match edit.forDuration case Some(d) => d case None => t.forDuration)
    && t'.repeatInterval == (match edit.repeatInterval case Some(d) => d case None => t.repeatInterval)
  }

  /** An updated task has each given value and otherwise the old one, the same flags, and if it is enabled
      and not paused it is in the wheel of its new priority and in no other, as a new task. */
  lemma UpdateMeans(s: Service, id: string, edit: Edit, f: Faults, now: int, stale: bool)
    requires Consistent(s) && Handle(s, UpdateReq(id, edit), f, now, stale).1 == Done
    ensures var s' := Handle(s, UpdateReq(id, edit), f, now, stale).0;
            && id in s.db && id in s'.db && Edited(s.db[id].task, edit, s'.db[id].task)
            && s'.db[id].enabled == s.db[id].enabled && s'.db[id].paused == s.db[id].paused
            && (if s.db[id].enabled && !s.db[id].paused then EnteredAs(s'.levels, s'.db[id].task, now, stale)
                else s'.levels == s.levels)
  {
    assert Agrees(s, id);
    RemoveClears(s.levels, id, id);
    if id in s.db && TryAdd(RemoveStep(s.levels, id), Apply(s.db[id].task, edit), now, stale).0 {
      AddedIsEntered(RemoveStep(s.levels, id), Apply(s.db[id].task, edit), now, stale);
    }
    hide TryAdd, EnteredAs, RollbackDb, RemoveStep;
  }

  /** The row of a request once the database has been changed. */
  ghost predicate RowAfter(db: Db, q: Request, db': Db) {
    var id := IdOf(q);
    match q
    case CreateReq(t, enabled, _) => id !in db && id in db' && db'[id] == Row(t.(id := id, hasRun := true), enabled, false)
    case DeleteReq(_) => id in db && id !in db'
    case EnableReq(_) => id in db && id in db' && db'[id] == db[id].(enabled := true)
    case DisableReq(_) => id in db && id in db' && db'[id] == db[id].(enabled := false)
    case PauseReq(_) => id in db && id in db' && db'[id] == db[id].(paused := true)
    case ResumeReq(_) => id in db && id in db' && db'[id] == db[id].(paused := false)
    case UpdateReq(_, edit) => id in db && id in db' && Edited(db[id].task, edit, db'[id].task)
                               && db'[id].enabled == db[id].enabled && db'[id].paused == db[id].paused
  }

  /** A request that is done has changed its row, and so has one that is stuck, but then the wheels are as
      before, or an Update has taken the task out of its wheel. In all other cases the rows are as before. */
  lemma RowsMean(s: Service, q: Request, f: Faults, now: int, stale: bool)
    requires RowsOk(s.db) && (q.CreateReq? ==> q.generated != "")
    ensures var (s', o) := Handle(s, q, f, now, stale);
            && (o == Done || o == Stuck ==> RowAfter(s.db, q, s'.db))
            && (o != Done && o != Stuck ==> s'.db == s.db)
            && (o == Stuck && !q.UpdateReq? ==> s'.levels == s.levels)
  {
    var plan := Plan(s, q, f).1;
    if plan.Some? {
      PlanIsFresh(s, q, f);
      CleanFailureUndoes(s, plan.value, f, now, stale);
    }
    hide WheelOp, RollbackDb;
  }

  // ---------- The three-level wheel ----------

  /** The first wheel that holds an id is the one that is asked, high priorities first. */
  lemma FirstWheelIsAsked(l: Levels, id: string, now: int)
    requires id != ""
    ensures l.Has(High, id) ==>
              && RemoveStep(l, id) == l.With(High, W.Step(l.high, W.Remove(id), ConfigOf(High)))
              && PauseStep(l, id) == l.With(High, W.Step(l.high, W.Pause(id), ConfigOf(High)))
              && ResumeStep(l, id, now) == l.With(High, W.Step(l.high, W.Resume(id, now), ConfigOf(High)))
    ensures !l.Has(High, id) && l.Has(Normal, id) ==>
              && RemoveStep(l, id) == l.With(Normal, W.Step(l.normal, W.Remove(id), ConfigOf(Normal)))
              && PauseStep(l, id) == l.With(Normal, W.Step(l.normal, W.Pause(id), ConfigOf(Normal)))
              && ResumeStep(l, id, now) == l.With(Normal, W.Step(l.normal, W.Resume(id, now), ConfigOf(Normal)))
    ensures !l.Has(High, id) && !l.Has(Normal, id) ==>
              && RemoveStep(l, id) == l.With(Low, W.Step(l.low, W.Remove(id), ConfigOf(Low)))
              && PauseStep(l, id) == l.With(Low, W.Step(l.low, W.Pause(id), ConfigOf(Low)))
              && ResumeStep(l, id, now) == l.With(Low, W.Step(l.low, W.Resume(id, now), ConfigOf(Low)))
  {
  }

  /** The wheels go round in 0.6, 6 and 60 seconds, in steps of 10, 100 and 1000 milliseconds. */
  lemma Rotations()
    ensures ConfigOf(High).interval == 10_000_000 && ConfigOf(High).slotNum * ConfigOf(High).interval == 600_000_000
    ensures ConfigOf(Normal).interval == 100_000_000 && ConfigOf(Normal).slotNum * ConfigOf(Normal).interval == 6_000_000_000
    ensures ConfigOf(Low).interval == 1_000_000_000 && ConfigOf(Low).slotNum * ConfigOf(Low).interval == 60_000_000_000
  {
  }

  /** Which error the three-level AddTask gives: an interval is demanded of every mode. */
  lemma AddAnswers(l: Levels, task: Option<Task>)
    ensures var r := AddResult(l, task);
            var usable := task.Some? && task.value.id != "" && task.value.hasRun;
            var timed := usable && task.value.interval > 0;
            && (r == Err(InvalidParam) <==> !usable)
            && (r == Err(IntervalInvalid) <==> usable && !timed)
            && (r == Err(WheelNotRunning) <==> timed && !l.At(WheelOf(task.value.priority)).running)
            && (timed && l.At(WheelOf(task.value.priority)).running ==>
                  var untimed := task.value.mode == FixedTimes && task.value.times <= 0;
                  && (r == Err(TimesInvalid) <==> untimed)
                  && (r == Err(TaskAlreadyExists) <==> !untimed && l.Has(WheelOf(task.value.priority), task.value.id))
                  && (r.Ok? <==> !untimed && !l.Has(WheelOf(task.value.priority), task.value.id)))
  {
  }

  /** A task that the three-level UpdateTask does not lose has its new definition, in the wheel of its new
      priority and in no other. */
  lemma LevelUpdateMeans(l: Levels, t: Task, now: int, stale: bool)
    requires t.id != "" && t.hasRun && t.interval > 0 && l.AtMostOnce(t.id)
    requires (t.mode == FixedTimes ==> t.times > 0) && l.At(WheelOf(t.priority)).running
    ensures EnteredAs(UpdateStep(l, t, now, stale), t, now, stale)
  {
    RemoveClears(l, t.id, t.id);
    RemoveKeepsRunning(l, t.id, WheelOf(t.priority));
    var l' := RemoveStep(l, t.id);
    assert !l'.InWheel(t.id);
    assert UpdateStep(l, t, now, stale) == TryAdd(l', t, now, stale).1 && TryAdd(l', t, now, stale).0 by {
      assert !l'.Has(WheelOf(t.priority), t.id);
      hide RemoveStep;
    }
    AddedIsEntered(l', t, now, stale);
  }
}
