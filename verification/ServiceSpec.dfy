/** What the atomic task service means: live rows, three wheel levels and an operation log, stepped
    by a do / do / undo protocol in which each database call may fail. */
module ServiceSpec {
  import opened TaskModel
  import W = WheelSpec
  import opened LevelSpec

  /** A live row. `task` is the task that addToTimeWheel builds from it. */
  datatype Row = Row(task: Task, enabled: bool, paused: bool)

  type Db = map<string, Row>

  datatype Status = Pending | Completed | Failed | RollbackFailed

  datatype OpKind = OpCreate | OpDelete | OpEnable | OpDisable | OpPause | OpResume | OpUpdate

  datatype LogEntry = LogEntry(id: string, kind: OpKind, status: Status)

  datatype Service = Service(db: Db, levels: Levels, log: seq<LogEntry>)

  /** Which calls into the repositories fail during one request. */
  datatype Faults = Faults(read: bool, logCreate: bool, dbOp: bool, rollback: bool, logUpdate: bool)

  /** The optional fields of an update request that matter to the wheel. */
  datatype Edit = Edit(
    mode: Option<Mode>, interval: Option<int>, times: Option<int>, priority: Option<int>,
    forDuration: Option<int>, repeatInterval: Option<int>)

  function Or<T>(o: Option<T>, d: T): T {
    if o.Some? then o.value else d
  }

  function Apply(t: Task, e: Edit): Task {
    t.(mode := Or(e.mode, t.mode), interval := Or(e.interval, t.interval), times := Or(e.times, t.times),
       priority := Or(e.priority, t.priority), forDuration := Or(e.forDuration, t.forDuration),
       repeatInterval := Or(e.repeatInterval, t.repeatInterval))
  }

  // ---------- The protocol ----------

  /** What the three closures of an operation capture: the snapshot row and the new definition. */
  datatype Saga =
    | Create(row: Row)
    | Delete(row: Row)
    | Enable(row: Row)
    | Disable(row: Row)
    | Pause(row: Row)
    | Resume(row: Row)
    | Update(row: Row, edit: Edit)
  {
    function Id(): string {
      row.task.id
    }

    function Kind(): OpKind {
      match this
      case Create(_) => OpCreate
      case Delete(_) => OpDelete
      case Enable(_) => OpEnable
      case Disable(_) => OpDisable
      case Pause(_) => OpPause
      case Resume(_) => OpResume
      case Update(_, _) => OpUpdate
    }
  }

  /** UPDATE ... WHERE id: no error when there is no such row. */
  function SetStatus(db: Db, id: string, enabled: bool, paused: bool): Db {
    if id in db then db[id := db[id].(enabled := enabled, paused := paused)] else db
  }

  /** The database operation; an insert fails on an existing key. */
  function DbOp(db: Db, g: Saga): Option<Db> {
    match g
    case Create(row) => if g.Id() in db then None else Some(db[g.Id() := row])
    case Delete(_) => Some(db - {g.Id()})
    case Enable(row) => Some(SetStatus(db, g.Id(), true, row.paused))
    case Disable(row) => Some(SetStatus(db, g.Id(), false, row.paused))
    case Pause(row) => Some(SetStatus(db, g.Id(), row.enabled, true))
    case Resume(row) => Some(SetStatus(db, g.Id(), row.enabled, false))
    case Update(row, edit) => Some(db[g.Id() := row.(task := Apply(row.task, edit))])
  }

  /** The wheel operation: whether it succeeds, and the levels it leaves. */
  function WheelOp(l: Levels, g: Saga, now: int, stale: bool): (bool, Levels) {
    match g
    case Create(row) => if row.enabled then TryAdd(l, row.task, now, stale) else (true, l)
    case Delete(_) => (LookupIn(l, g.Id()).Ok?, RemoveStep(l, g.Id()))
    case Enable(row) => if !row.paused then TryAdd(l, row.task, now, stale) else (true, l)
    case Disable(_) => (LookupIn(l, g.Id()).Ok?, RemoveStep(l, g.Id()))
    case Pause(_) => (LookupIn(l, g.Id()).Ok?, PauseStep(l, g.Id()))
    case Resume(row) =>
      if !row.enabled then (true, l)
      else if LookupIn(l, g.Id()).Ok? then (true, ResumeStep(l, g.Id(), now))
      else TryAdd(l, row.task, now, stale)
    case Update(row, edit) =>
      if row.enabled && !row.paused then TryAdd(RemoveStep(l, g.Id()), Apply(row.task, edit), now, stale) else (true, l)
  }

  function TryAdd(l: Levels, t: Task, now: int, stale: bool): (bool, Levels) {
    (AddResult(l, Some(t)).Ok?, AddStep(l, Some(t), now, stale))
  }

  function RollbackDb(db: Db, g: Saga): Db {
    match g
    case Create(_) => db - {g.Id()}
    case Delete(row) => db[g.Id() := row]
    case Enable(row) => SetStatus(db, g.Id(), false, row.paused)
    case Disable(row) => SetStatus(db, g.Id(), true, row.paused)
    case Pause(row) => SetStatus(db, g.Id(), row.enabled, false)
    case Resume(row) => SetStatus(db, g.Id(), row.enabled, true)
    case Update(row, _) => db[g.Id() := row]
  }

  /** How a request ended. `Refused` means that no operation was started. */
  datatype Outcome = Refused | Unchanged | NotLogged | DbFailed | Done | RolledBack | Stuck

  function Logged(log: seq<LogEntry>, g: Saga, status: Status, f: Faults): seq<LogEntry> {
    log + [LogEntry(g.Id(), g.Kind(), if f.logUpdate then Pending else status)]
  }

  /** executeAtomically. */
  function Execute(s: Service, g: Saga, f: Faults, now: int, stale: bool): (Service, Outcome) {
    if f.logCreate then (s, NotLogged)
    else if f.dbOp || DbOp(s.db, g).None? then (s.(log := Logged(s.log, g, Failed, f)), DbFailed)
    else
      var db := DbOp(s.db, g).value;
      var (ok, levels) := WheelOp(s.levels, g, now, stale);
      if ok then (Service(db, levels, Logged(s.log, g, Completed, f)), Done)
      else if f.rollback then (Service(db, levels, Logged(s.log, g, RollbackFailed, f)), Stuck)
      else (Service(RollbackDb(db, g), levels, Logged(s.log, g, Failed, f)), RolledBack)
  }

  datatype Request =
    | CreateReq(task: Task, enabled: bool, generated: string)
    | DeleteReq(id: string)
    | EnableReq(id: string)
    | DisableReq(id: string)
    | PauseReq(id: string)
    | ResumeReq(id: string)
    | UpdateReq(id: string, edit: Edit)

  /** The row a create request stores: a generated id if it has none, and a callback of its own. */
  function NewRow(q: Request): Row
    requires q.CreateReq?
  {
    Row(q.task.(id := if q.task.id == "" then q.generated else q.task.id, hasRun := true), q.enabled, false)
  }

  /** The checks before executeAtomically: what operation to run, or how the request ends without one. */
  function Plan(s: Service, q: Request, f: Faults): (Outcome, Option<Saga>) {
    if q.CreateReq? then
      // a failed read counts as "no such task"
      if !f.read && NewRow(q).task.id in s.db then (Refused, None) else (Done, Some(Create(NewRow(q))))
    else if f.read || q.id !in s.db then (Refused, None)
    else
      var row := s.db[q.id];
      match q
      case DeleteReq(_) => (Done, Some(Delete(row)))
      case EnableReq(_) => if row.enabled then (Unchanged, None) else (Done, Some(Enable(row)))
      case DisableReq(_) => if !row.enabled then (Unchanged, None) else (Done, Some(Disable(row)))
      case PauseReq(_) => if row.paused then (Unchanged, None) else (Done, Some(Pause(row)))
      case ResumeReq(_) => if !row.paused then (Unchanged, None) else (Done, Some(Resume(row)))
      case UpdateReq(_, edit) => (Done, Some(Update(row, edit)))
  }

  function Handle(s: Service, q: Request, f: Faults, now: int, stale: bool): (Service, Outcome) {
    var (o, g) := Plan(s, q, f);
    match g
    case None => (s, o)
    case Some(saga) => Execute(s, saga, f, now, stale)
  }

  // ---------- The invariant ----------

  predicate RowsOk(db: Db) {
    forall id :: id in db ==> db[id].task.id == id != "" && db[id].task.hasRun
  }

  /** Rows and wheels agree about one id. */
  predicate Agrees(s: Service, id: string) {
    && (id in s.db && s.db[id].enabled && !s.db[id].paused ==> s.levels.InWheel(id))
    && (s.levels.InWheel(id) ==> id in s.db && s.db[id].enabled)
    && s.levels.AtMostOnce(id)
  }

  ghost predicate Consistent(s: Service) {
    RowsOk(s.db) && forall id :: Agrees(s, id)
  }

  /** A plan is made from the row it finds. */
  predicate Fresh(s: Service, g: Saga) {
    && g.Id() != "" && g.row.task.hasRun
    && (g.Create? ==> !g.row.paused)
    && (!g.Create? ==> g.Id() in s.db && s.db[g.Id()] == g.row)
    && (g.Enable? ==> !g.row.enabled) && (g.Disable? ==> g.row.enabled)
    && (g.Pause? ==> !g.row.paused) && (g.Resume? ==> g.row.paused)
  }

  lemma PlanIsFresh(s: Service, q: Request, f: Faults)
    requires RowsOk(s.db) && Plan(s, q, f).1.Some? && (q.CreateReq? ==> q.generated != "")
    ensures Fresh(s, Plan(s, q, f).1.value)
  {
  }

  // ---------- Undo ----------

  /** A clean failure leaves every row as it was, and for every operation but Update the wheels too.
      A failed Update of an enabled, unpaused task has taken it out of the wheel. */
  lemma CleanFailureUndoes(s: Service, g: Saga, f: Faults, now: int, stale: bool)
    requires RowsOk(s.db) && Fresh(s, g)
    ensures var (s', o) := Execute(s, g, f, now, stale);
            && (o in {NotLogged, DbFailed, RolledBack} ==> s'.db == s.db)
            && (o in {NotLogged, DbFailed} || (o == RolledBack && !g.Update?) ==> s'.levels == s.levels)
            && (o == RolledBack && g.Update? ==> s'.levels == RemoveStep(s.levels, g.Id()) && g.row.enabled && !g.row.paused)
            && (o == Stuck && !g.Update? ==> s'.levels == s.levels)
  {
    if !WheelOp(s.levels, g, now, stale).0 {
      FailedWheelOp(s.levels, g, now, stale);
    }
    hide WheelOp;
  }

  /** A wheel operation that fails changes nothing, but for the removal that an Update starts with. */
  lemma FailedWheelOp(l: Levels, g: Saga, now: int, stale: bool)
    requires !WheelOp(l, g, now, stale).0
    ensures if g.Update? then WheelOp(l, g, now, stale).1 == RemoveStep(l, g.Id()) && g.row.enabled && !g.row.paused
            else WheelOp(l, g, now, stale).1 == l
  {
    FailedStepKeepsLevels(l, g.Id());
    FailedAddKeepsLevels(l, g.row.task, now, stale);
    if g.Update? {
      FailedAddKeepsLevels(RemoveStep(l, g.Id()), Apply(g.row.task, g.edit), now, stale);
    }
    hide TryAdd, RemoveStep, PauseStep, ResumeStep, LookupIn;
  }

  lemma FailedAddKeepsLevels(l: Levels, t: Task, now: int, stale: bool)
    ensures !TryAdd(l, t, now, stale).0 ==> TryAdd(l, t, now, stale).1 == l
  {
  }

  lemma FailedStepKeepsLevels(l: Levels, id: string)
    ensures LookupIn(l, id).Err? ==> RemoveStep(l, id) == l && PauseStep(l, id) == l
  {
  }

  // ---------- Agreement of rows and wheels ----------

  predicate SameLevels(l: Levels, l': Levels, id: string) {
    forall x: Level :: l.Has(x, id) == l'.Has(x, id)
  }

  lemma SameLevelsAgree(l: Levels, l': Levels, id: string)
    requires SameLevels(l, l', id)
    ensures l.InWheel(id) == l'.InWheel(id) && l.AtMostOnce(id) == l'.AtMostOnce(id)
  {
    assert l.Has(High, id) == l'.Has(High, id);
    assert l.Has(Normal, id) == l'.Has(Normal, id);
    assert l.Has(Low, id) == l'.Has(Low, id);
  }

  lemma RemoveClears(l: Levels, id: string, other: string)
    ensures other != id ==> SameLevels(l, RemoveStep(l, id), other)
    ensures id != "" && l.AtMostOnce(id) ==> !RemoveStep(l, id).InWheel(id)
  {
    LookupFinds(l, id);
    var l', x := RemoveStep(l, id), Target(l, id);
    if id != "" && l.AtMostOnce(id) && l.InWheel(id) {
      forall y ensures !l'.Has(y, id) {
        if y != x {
          assert l'.At(y) == l.At(y);
          assert l.Has(x, id) && (l.Has(y, id) ==> y == x);
        }
      }
    }
  }

  lemma FlagsKeepLevels(l: Levels, id: string, now: int, other: string)
    ensures SameLevels(l, PauseStep(l, id), other) && SameLevels(l, ResumeStep(l, id, now), other)
  {
  }

  lemma TryAddEnters(l: Levels, t: Task, now: int, stale: bool, other: string)
    ensures other != t.id ==> SameLevels(l, TryAdd(l, t, now, stale).1, other)
    ensures TryAdd(l, t, now, stale).0 && !l.InWheel(t.id) ==>
              TryAdd(l, t, now, stale).1.InWheel(t.id) && TryAdd(l, t, now, stale).1.AtMostOnce(t.id)
    ensures !TryAdd(l, t, now, stale).0 ==> TryAdd(l, t, now, stale).1 == l
  {
    if LevelSpec.AddResult(l, Some(t)).Ok? {
      AddKeepsSingleLevel(l, Some(t), now, stale);
      forall x: Level ensures other != t.id ==> l.Has(x, other) == TryAdd(l, t, now, stale).1.Has(x, other) {
      }
    }
  }

  /** An operation touches no other id. */
  lemma WheelOpFramesOthers(l: Levels, g: Saga, now: int, stale: bool, other: string)
    requires other != g.Id()
    ensures SameLevels(l, WheelOp(l, g, now, stale).1, other)
  {
    hide TryAdd, RemoveStep, PauseStep, ResumeStep, LookupIn;
    RemoveClears(l, g.Id(), other);
    FlagsKeepLevels(l, g.Id(), now, other);
    TryAddEnters(l, g.row.task, now, stale, other);
    if g.Update? {
      TryAddEnters(RemoveStep(l, g.Id()), Apply(g.row.task, g.edit), now, stale, other);
    }
  }

  /** A completed operation leaves its own id in agreement. */
  lemma DoneAgrees(s: Service, g: Saga, now: int, stale: bool)
    requires RowsOk(s.db) && Agrees(s, g.Id()) && Fresh(s, g) && DbOp(s.db, g).Some?
    requires WheelOp(s.levels, g, now, stale).0
    ensures Agrees(Service(DbOp(s.db, g).value, WheelOp(s.levels, g, now, stale).1, s.log), g.Id())
  {
    var l, id := s.levels, g.Id();
    LookupFinds(l, id);
    RemoveClears(l, id, id);
    FlagsKeepLevels(l, id, now, id);
    SameLevelsAgree(l, PauseStep(l, id), id);
    SameLevelsAgree(l, ResumeStep(l, id, now), id);
    TryAddEnters(l, g.row.task, now, stale, id);
    if g.Update? {
      TryAddEnters(RemoveStep(l, id), Apply(g.row.task, g.edit), now, stale, id);
    }
    hide TryAdd, RemoveStep, PauseStep, ResumeStep, LookupIn;
  }

  lemma DbOpKeepsRowsOk(db: Db, g: Saga)
    requires RowsOk(db) && g.Id() != "" && g.row.task.hasRun
    ensures DbOp(db, g).Some? ==> RowsOk(DbOp(db, g).value)
    ensures forall id :: id != g.Id() && DbOp(db, g).Some? ==> (id in DbOp(db, g).value <==> id in db)
    ensures forall id :: id != g.Id() && DbOp(db, g).Some? && id in db ==> DbOp(db, g).value[id] == db[id]
  {
  }

  // ---------- When an operation is safe ----------

  /** The operation puts a new entry into a wheel. */
  predicate Adds(l: Levels, g: Saga) {
    match g
    case Create(row) => row.enabled
    case Enable(row) => !row.paused
    case Resume(row) => row.enabled && LookupIn(l, g.Id()).Err?
    case Update(row, _) => row.enabled && !row.paused
    case _ => false
  }

  /** The task it puts there. */
  function Added(g: Saga): Task {
    if g.Update? then Apply(g.row.task, g.edit) else g.row.task
  }

  /** The operation is stopped before the wheel, or adds nothing, or adds a task that can be added, or
      is undone, which an Update never is. All of this can be told before the call. */
  predicate Safe(s: Service, g: Saga, f: Faults) {
    || f.logCreate || f.dbOp || DbOp(s.db, g).None?
    || !Adds(s.levels, g) || CanAdd(s.levels, Added(g))
    || (!g.Update? && !f.rollback)
  }

  lemma RemoveKeepsRunning(l: Levels, id: string, x: Level)
    ensures RemoveStep(l, id).At(x).running == l.At(x).running
  {
  }

  /** The wheel operation succeeds exactly when the task it adds can be added, or the entry it needs is
      in a wheel. */
  lemma WheelOpSucceedsIff(s: Service, g: Saga, now: int, stale: bool)
    requires Agrees(s, g.Id()) && RowsOk(s.db) && Fresh(s, g) && DbOp(s.db, g).Some?
    ensures WheelOp(s.levels, g, now, stale).0 <==>
              && (Adds(s.levels, g) ==> CanAdd(s.levels, Added(g)))
              && (g.Delete? || g.Disable? || g.Pause? ==> s.levels.InWheel(g.Id()))
    ensures Adds(s.levels, g) && !g.Update? ==> !s.levels.InWheel(g.Id())
  {
    var l, id := s.levels, g.Id();
    LookupFinds(l, id);
    RemoveClears(l, id, id);
    RemoveKeepsRunning(l, id, LevelOf(Added(g).priority));
    if Adds(l, g) {
      var base := if g.Update? then RemoveStep(l, id) else l;
      assert !base.InWheel(id);
      AddSucceedsIff(base, Added(g));
      assert CanAdd(base, Added(g)) == CanAdd(l, Added(g));
    }
    hide RemoveStep, PauseStep, ResumeStep, AddStep, LevelSpec.AddResult, CanAdd, LookupIn;
  }

  /** An unsafe operation leaves an enabled, unpaused row whose task is in no wheel. */
  lemma UnsafeBreaks(s: Service, g: Saga, f: Faults, now: int, stale: bool)
    requires Agrees(s, g.Id()) && RowsOk(s.db) && Fresh(s, g) && !Safe(s, g, f)
    ensures !Agrees(Execute(s, g, f, now, stale).0, g.Id())
  {
    var l, id := s.levels, g.Id();
    WheelOpSucceedsIff(s, g, now, stale);
    LookupFinds(l, id);
    RemoveClears(l, id, id);
    CleanFailureUndoes(s, g, f, now, stale);
    TryAddEnters(l, g.row.task, now, stale, id);
    TryAddEnters(RemoveStep(l, id), Added(g), now, stale, id);
    hide TryAdd, RemoveStep, PauseStep, ResumeStep, LookupIn, CanAdd;
  }

  /** And a safe one leaves its own id in agreement, however it ends. */
  lemma SafeAgrees(s: Service, g: Saga, f: Faults, now: int, stale: bool)
    requires Agrees(s, g.Id()) && RowsOk(s.db) && Fresh(s, g) && Safe(s, g, f)
    ensures Agrees(Execute(s, g, f, now, stale).0, g.Id())
  {
    var (s', o) := Execute(s, g, f, now, stale);
    CleanFailureUndoes(s, g, f, now, stale);
    if DbOp(s.db, g).Some? {
      WheelOpSucceedsIff(s, g, now, stale);
    }
    if o == Done {
      DoneAgrees(s, g, now, stale);
    }
    hide WheelOp, CanAdd;
  }

  lemma ExecuteKeepsOthers(s: Service, g: Saga, f: Faults, now: int, stale: bool, id: string)
    requires RowsOk(s.db) && Fresh(s, g) && id != g.Id()
    ensures Agrees(Execute(s, g, f, now, stale).0, id) <==> Agrees(s, id)
  {
    var s' := Execute(s, g, f, now, stale).0;
    CleanFailureUndoes(s, g, f, now, stale);
    DbOpKeepsRowsOk(s.db, g);
    WheelOpFramesOthers(s.levels, g, now, stale, id);
    hide WheelOp, DbOp;
    SameLevelsAgree(s.levels, s'.levels, id);
  }

  lemma ExecuteKeepsRowsOk(s: Service, g: Saga, f: Faults, now: int, stale: bool)
    requires RowsOk(s.db) && Fresh(s, g)
    ensures RowsOk(Execute(s, g, f, now, stale).0.db)
  {
    CleanFailureUndoes(s, g, f, now, stale);
    DbOpKeepsRowsOk(s.db, g);
    hide WheelOp, DbOp, RowsOk;
  }

  /** Each of the seven operations, whatever calls fail, keeps rows and wheels in agreement exactly
      when it is safe. */
  lemma ExecuteKeepsConsistentIff(s: Service, g: Saga, f: Faults, now: int, stale: bool)
    requires Consistent(s) && Fresh(s, g)
    ensures Consistent(Execute(s, g, f, now, stale).0) <==> Safe(s, g, f)
  {
    var s' := Execute(s, g, f, now, stale).0;
    assert Agrees(s, g.Id());
    ExecuteKeepsRowsOk(s, g, f, now, stale);
    hide Execute, Agrees, Safe, Fresh, RowsOk;
    if Safe(s, g, f) {
      SafeAgrees(s, g, f, now, stale);
      forall id ensures Agrees(s', id) {
        if id != g.Id() {
          assert Agrees(s, id);
          ExecuteKeepsOthers(s, g, f, now, stale, id);
        }
      }
    } else {
      UnsafeBreaks(s, g, f, now, stale);
    }
  }

  /** Afterwards the outcome tells: an operation was unsafe exactly if it is an Update that was rolled
      back, or a stuck operation that was to add a task. */
  lemma OutcomeTellsSafety(s: Service, g: Saga, f: Faults, now: int, stale: bool)
    requires Agrees(s, g.Id()) && RowsOk(s.db) && Fresh(s, g)
    ensures var o := Execute(s, g, f, now, stale).1;
            !Safe(s, g, f) <==> (o == RolledBack && g.Update?) || (o == Stuck && Adds(s.levels, g))
  {
    if DbOp(s.db, g).Some? {
      WheelOpSucceedsIff(s, g, now, stale);
    }
    CleanFailureUndoes(s, g, f, now, stale);
    hide WheelOp, CanAdd, DbOp, RollbackDb;
  }

  /** So every operation that completes or is cleanly rolled back keeps rows and wheels in agreement,
      except an Update that was rolled back, and that one never does. */
  lemma ExecuteKeepsConsistent(s: Service, g: Saga, f: Faults, now: int, stale: bool)
    requires Consistent(s) && Fresh(s, g)
    requires Execute(s, g, f, now, stale).1 != Stuck
    ensures Consistent(Execute(s, g, f, now, stale).0) <==> !(g.Update? && Execute(s, g, f, now, stale).1 == RolledBack)
  {
    assert Agrees(s, g.Id());
    OutcomeTellsSafety(s, g, f, now, stale);
    ExecuteKeepsConsistentIff(s, g, f, now, stale);
    hide Execute, Safe;
  }

  /** So an Update that reaches the wheel loses an enabled, unpaused task exactly when the edited task
      cannot be added, rollback or not. */
  lemma UpdateKeepsAgreementIff(s: Service, g: Saga, f: Faults, now: int, stale: bool)
    requires Consistent(s) && Fresh(s, g) && g.Update? && !f.logCreate && !f.dbOp
    ensures Agrees(Execute(s, g, f, now, stale).0, g.Id()) <==>
              (g.row.enabled && !g.row.paused ==> CanAdd(s.levels, Apply(g.row.task, g.edit)))
  {
    assert Agrees(s, g.Id());
    hide Execute, Agrees, CanAdd;
    if Safe(s, g, f) {
      SafeAgrees(s, g, f, now, stale);
    } else {
      UnsafeBreaks(s, g, f, now, stale);
    }
  }

  const NO_FAULTS := Faults(false, false, false, false, false)

  const NO_EDIT := Edit(None, None, None, None, None, None)

  /** With no failing call at all, an edit to an invalid task is rolled back, and the task is gone from
      its wheel. */
  lemma InvalidEditLosesTask(s: Service, id: string, edit: Edit, now: int, stale: bool)
    requires Consistent(s) && id in s.db && s.db[id].enabled && !s.db[id].paused
    requires !ValidTask(Apply(s.db[id].task, edit))
    ensures var (s', o) := Handle(s, UpdateReq(id, edit), NO_FAULTS, now, stale);
            o == RolledBack && s'.db == s.db && s.levels.InWheel(id) && !s'.levels.InWheel(id)
  {
    var g := Saga.Update(s.db[id], edit);
    assert Agrees(s, id);
    WheelOpSucceedsIff(s, g, now, stale);
    CleanFailureUndoes(s, g, NO_FAULTS, now, stale);
    RemoveClears(s.levels, id, id);
    hide WheelOp, RemoveStep;
  }

  /** For instance an interval of 0, which the service accepts although its request type excludes it. */
  lemma ZeroIntervalEditLosesTask(s: Service, id: string, now: int, stale: bool)
    requires Consistent(s) && id in s.db && s.db[id].enabled && !s.db[id].paused
    ensures var (s', o) := Handle(s, UpdateReq(id, NO_EDIT.(interval := Some(0))), NO_FAULTS, now, stale);
            o == RolledBack && s'.db == s.db && s.levels.InWheel(id) && !s'.levels.InWheel(id)
  {
    InvalidEditLosesTask(s, id, NO_EDIT.(interval := Some(0)), now, stale);
  }

  /** And one that the request type allows: a row without a number of times changes to fixed times. */
  lemma ModeEditLosesTask(s: Service, id: string, now: int, stale: bool)
    requires Consistent(s) && id in s.db && s.db[id].enabled && !s.db[id].paused && s.db[id].task.times == 0
    ensures var (s', o) := Handle(s, UpdateReq(id, NO_EDIT.(mode := Some(FixedTimes))), NO_FAULTS, now, stale);
            o == RolledBack && s'.db == s.db && s.levels.InWheel(id) && !s'.levels.InWheel(id)
  {
    InvalidEditLosesTask(s, id, NO_EDIT.(mode := Some(FixedTimes)), now, stale);
  }

  /** Delete, Disable and Pause complete exactly when no repository call fails and the task is in a
      wheel: a disabled task can be neither deleted nor paused. */
  lemma NeedsWheel(s: Service, g: Saga, f: Faults, now: int, stale: bool)
    requires RowsOk(s.db) && Fresh(s, g) && (g.Delete? || g.Disable? || g.Pause?)
    ensures Execute(s, g, f, now, stale).1 == Done <==> !f.logCreate && !f.dbOp && s.levels.InWheel(g.Id())
  {
    LookupFinds(s.levels, g.Id());
  }

  lemma DisabledCannotBeDeleted(s: Service, id: string, f: Faults, now: int, stale: bool)
    requires Consistent(s) && id in s.db && !s.db[id].enabled
    ensures var (s', o) := Handle(s, DeleteReq(id), f, now, stale);
            o != Done && (o != Stuck ==> s'.db == s.db && s'.levels == s.levels)
  {
    assert Agrees(s, id);
    NeedsWheel(s, Delete(s.db[id]), f, now, stale);
    CleanFailureUndoes(s, Delete(s.db[id]), f, now, stale);
  }

  // ---------- Runs ----------

  /** A request, or a tick of one level. */
  datatype Event =
    | Call(q: Request, f: Faults, now: int, stale: bool)
    | Elapse(level: Level, at: int, outcomes: string -> RunOutcome)

  function EventStep(s: Service, e: Event): Service {
    match e
    case Call(q, f, now, stale) => Handle(s, q, f, now, stale).0
    case Elapse(x, at, outcomes) =>
      s.(levels := s.levels.With(x, W.TickStep(s.levels.At(x), at, outcomes, ConfigOf(x))))
  }

  function RunService(s: Service, es: seq<Event>): Service {
    if es == [] then s else EventStep(RunService(s, es[..|es| - 1]), es[|es| - 1])
  }

  predicate Repeating(m: Mode) {
    m != Once && m != FixedTimes
  }

  /** Every task is periodic, so no tick takes one out of its wheel. */
  ghost predicate AllRepeat(s: Service) {
    && (forall id :: id in s.db ==> Repeating(s.db[id].task.mode))
    && (forall x: Level, id :: s.levels.Has(x, id) ==> Repeating(s.levels.At(x).view[id].task.mode))
  }

  /** An event about periodic tasks, however it ends. */
  predicate PeriodicEvent(e: Event) {
    e.Call? ==>
      && (e.q.CreateReq? ==> e.q.generated != "" && Repeating(e.q.task.mode))
      && (e.q.UpdateReq? && e.q.edit.mode.Some? ==> Repeating(e.q.edit.mode.value))
  }

  /** The operation that the event starts, if it starts one, is safe. */
  predicate SafeEvent(s: Service, e: Event) {
    e.Call? && Plan(s, e.q, e.f).1.Some? ==> Safe(s, Plan(s, e.q, e.f).1.value, e.f)
  }

  lemma TickKeepsIds(s: Service, x: Level, at: int, outcomes: string -> RunOutcome, y: Level, id: string)
    requires AllRepeat(s)
    ensures var s' := EventStep(s, Elapse(x, at, outcomes));
            && s'.levels.Has(y, id) == s.levels.Has(y, id)
            && (s.levels.Has(y, id) ==> s'.levels.At(y).view[id].task == s.levels.At(y).view[id].task)
  {
    if s.levels.Has(y, id) {
      assert Repeating(s.levels.At(y).view[id].task.mode);
    }
  }

  lemma StepsKeepTasks(l: Levels, y: string, now: int, x: Level, id: string)
    ensures RemoveStep(l, y).Has(x, id) ==> l.Has(x, id) && RemoveStep(l, y).At(x).view[id].task == l.At(x).view[id].task
    ensures PauseStep(l, y).Has(x, id) ==> l.Has(x, id) && PauseStep(l, y).At(x).view[id].task == l.At(x).view[id].task
    ensures ResumeStep(l, y, now).Has(x, id) ==> l.Has(x, id) && ResumeStep(l, y, now).At(x).view[id].task == l.At(x).view[id].task
  {
  }

  lemma TryAddTasks(l: Levels, t: Task, now: int, stale: bool, x: Level, id: string)
    requires TryAdd(l, t, now, stale).1.Has(x, id)
    ensures var t' := TryAdd(l, t, now, stale).1.At(x).view[id].task;
            Normalize(Some(t)) == Ok(t') || (l.Has(x, id) && t' == l.At(x).view[id].task)
  {
  }

  /** Entries keep their definitions, except that an operation may enter its own task. */
  lemma WheelOpKeepsTasks(l: Levels, g: Saga, now: int, stale: bool, x: Level, id: string)
    requires WheelOp(l, g, now, stale).1.Has(x, id)
    ensures var t := WheelOp(l, g, now, stale).1.At(x).view[id].task;
            || (l.Has(x, id) && t == l.At(x).view[id].task)
            || Normalize(Some(g.row.task)) == Ok(t)
            || (g.Update? && Normalize(Some(Apply(g.row.task, g.edit))) == Ok(t))
  {
    hide TryAdd, RemoveStep, PauseStep, ResumeStep, Normalize, Apply;
    StepsKeepTasks(l, g.Id(), now, x, id);
    if TryAdd(l, g.row.task, now, stale).1.Has(x, id) {
      TryAddTasks(l, g.row.task, now, stale, x, id);
    }
    if g.Update? {
      var t := Apply(g.row.task, g.edit);
      if TryAdd(RemoveStep(l, g.Id()), t, now, stale).1.Has(x, id) {
        TryAddTasks(RemoveStep(l, g.Id()), t, now, stale, x, id);
      }
    }
  }

  lemma DoneKeepsRepeat(s: Service, g: Saga, now: int, stale: bool, log: seq<LogEntry>)
    requires RowsOk(s.db) && AllRepeat(s) && Fresh(s, g) && DbOp(s.db, g).Some?
    requires Repeating(g.row.task.mode) && (g.Update? ==> Repeating(Apply(g.row.task, g.edit).mode))
    ensures AllRepeat(Service(DbOp(s.db, g).value, WheelOp(s.levels, g, now, stale).1, log))
  {
    var l' := WheelOp(s.levels, g, now, stale).1;
    forall x: Level, id | l'.Has(x, id) ensures Repeating(l'.At(x).view[id].task.mode) {
      WheelOpKeepsTasks(s.levels, g, now, stale, x, id);
    }
    hide WheelOp, Apply;
  }

  lemma ExecuteKeepsRepeat(s: Service, g: Saga, f: Faults, now: int, stale: bool)
    requires RowsOk(s.db) && AllRepeat(s) && Fresh(s, g)
    requires Repeating(g.row.task.mode) && (g.Update? ==> Repeating(Apply(g.row.task, g.edit).mode))
    ensures var s' := Execute(s, g, f, now, stale).0; AllRepeat(s') && RowsOk(s'.db)
  {
    CleanFailureUndoes(s, g, f, now, stale);
    DbOpKeepsRowsOk(s.db, g);
    if DbOp(s.db, g).Some? {
      DoneKeepsRepeat(s, g, now, stale, []);
    }
    hide WheelOp, DbOp, RollbackDb, Apply, Fresh;
  }

  lemma EventKeepsRepeat(s: Service, e: Event)
    requires RowsOk(s.db) && AllRepeat(s) && PeriodicEvent(e)
    ensures AllRepeat(EventStep(s, e)) && RowsOk(EventStep(s, e).db)
  {
    var s' := EventStep(s, e);
    if e.Call? {
      var plan := Plan(s, e.q, e.f).1;
      if plan.Some? {
        PlanIsFresh(s, e.q, e.f);
        assert Repeating(plan.value.row.task.mode) && (plan.value.Update? ==> Repeating(Apply(plan.value.row.task, plan.value.edit).mode));
        hide Execute, Fresh, Apply, AllRepeat;
        ExecuteKeepsRepeat(s, plan.value, e.f, e.now, e.stale);
      }
    } else {
      hide W.TickStep;
      forall x: Level, id | s'.levels.Has(x, id) ensures Repeating(s'.levels.At(x).view[id].task.mode) {
        TickKeepsIds(s, e.level, e.at, e.outcomes, x, id);
      }
    }
  }

  /** One event keeps agreement exactly when it is safe. */
  lemma EventKeepsConsistentIff(s: Service, e: Event)
    requires Consistent(s) && AllRepeat(s) && PeriodicEvent(e)
    ensures Consistent(EventStep(s, e)) <==> SafeEvent(s, e)
  {
    var s' := EventStep(s, e);
    if e.Call? {
      hide Execute, Safe, AllRepeat, Fresh, Agrees;
      if Plan(s, e.q, e.f).1.Some? {
        PlanIsFresh(s, e.q, e.f);
        ExecuteKeepsConsistentIff(s, Plan(s, e.q, e.f).1.value, e.f, e.now, e.stale);
      }
    } else {
      hide W.TickStep;
      forall x: Level, id ensures s'.levels.Has(x, id) == s.levels.Has(x, id) {
        TickKeepsIds(s, e.level, e.at, e.outcomes, x, id);
      }
      forall id ensures Agrees(s', id) {
        assert Agrees(s, id);
        SameLevelsAgree(s.levels, s'.levels, id);
      }
    }
  }

  lemma {:induction false} RunKeepsRepeat(s: Service, es: seq<Event>)
    requires RowsOk(s.db) && AllRepeat(s) && forall k :: 0 <= k < |es| ==> PeriodicEvent(es[k])
    ensures AllRepeat(RunService(s, es)) && RowsOk(RunService(s, es).db)
  {
    if es != [] {
      RunKeepsRepeat(s, es[..|es| - 1]);
      EventKeepsRepeat(RunService(s, es[..|es| - 1]), es[|es| - 1]);
    }
  }

  ghost predicate AgreesThroughout(s: Service, es: seq<Event>) {
    forall k :: 0 <= k <= |es| ==> Consistent(RunService(s, es[..k]))
  }

  predicate SafeThroughout(s: Service, es: seq<Event>) {
    forall k :: 0 <= k < |es| ==> SafeEvent(RunService(s, es[..k]), es[k])
  }

  lemma ThroughoutStep(s: Service, es: seq<Event>)
    requires es != []
    ensures var p, e := es[..|es| - 1], es[|es| - 1];
            && (AgreesThroughout(s, es) <==> AgreesThroughout(s, p) && Consistent(RunService(s, es)))
            && (SafeThroughout(s, es) <==> SafeThroughout(s, p) && SafeEvent(RunService(s, p), e))
            && (AgreesThroughout(s, p) ==> Consistent(RunService(s, p)))
  {
    hide Consistent, SafeEvent, RunService;
    var p := es[..|es| - 1];
    assert forall k :: 0 <= k <= |p| ==> p[..k] == es[..k];
    assert es[..|es|] == es && p[..|p|] == p;
  }

  /** Over any run of requests and ticks, whatever calls fail: rows and wheels agree all the way, and no
      id is ever in two levels, exactly when every event is safe where it happens. */
  lemma {:induction false} RunKeepsConsistentIff(s: Service, es: seq<Event>)
    requires Consistent(s) && AllRepeat(s) && forall k :: 0 <= k < |es| ==> PeriodicEvent(es[k])
    ensures AgreesThroughout(s, es) <==> SafeThroughout(s, es)
  {
    if es == [] {
      assert es[..0] == es;
    } else {
      hide Consistent, SafeEvent, AllRepeat, AgreesThroughout, SafeThroughout, EventStep;
      var p := es[..|es| - 1];
      RunKeepsConsistentIff(s, p);
      RunKeepsRepeat(s, p);
      ThroughoutStep(s, es);
      if AgreesThroughout(s, p) {
        EventKeepsConsistentIff(RunService(s, p), es[|es| - 1]);
      }
    }
  }

  // ---------- Valid tasks are never lost ----------

  /** Every row holds a task that any running wheel accepts. */
  predicate ValidTask(t: Task) {
    t.interval > 0 && Normalize(Some(t)).Ok?
  }

  ghost predicate AllValid(s: Service) {
    s.levels.Running() && forall id :: id in s.db ==> ValidTask(s.db[id].task)
  }

  /** The request stores no invalid task. */
  predicate ValidEvent(s: Service, e: Event) {
    e.Call? ==>
      && (e.q.CreateReq? ==> ValidTask(NewRow(e.q).task))
      && (e.q.UpdateReq? && e.q.id in s.db ==> ValidTask(Apply(s.db[e.q.id].task, e.q.edit)))
  }

  lemma WheelOpKeepsRunning(l: Levels, g: Saga, now: int, stale: bool, x: Level)
    ensures WheelOp(l, g, now, stale).1.At(x).running == l.At(x).running
  {
  }

  lemma ExecuteKeepsValid(s: Service, g: Saga, f: Faults, now: int, stale: bool)
    requires RowsOk(s.db) && AllValid(s) && Fresh(s, g) && ValidTask(g.row.task) && ValidTask(Added(g))
    ensures AllValid(Execute(s, g, f, now, stale).0)
  {
    var s' := Execute(s, g, f, now, stale).0;
    CleanFailureUndoes(s, g, f, now, stale);
    DbOpKeepsRowsOk(s.db, g);
    forall x: Level ensures s'.levels.At(x).running {
      RemoveKeepsRunning(s.levels, g.Id(), x);
      WheelOpKeepsRunning(s.levels, g, now, stale, x);
    }
    hide WheelOp, RemoveStep, ValidTask, RowsOk;
  }

  lemma ValidEventIsSafe(s: Service, e: Event)
    requires RowsOk(s.db) && AllValid(s) && ValidEvent(s, e) && PeriodicEvent(e)
    ensures SafeEvent(s, e) && AllValid(EventStep(s, e))
  {
    if e.Call? && Plan(s, e.q, e.f).1.Some? {
      var g := Plan(s, e.q, e.f).1.value;
      PlanIsFresh(s, e.q, e.f);
      assert ValidTask(g.row.task) && ValidTask(Added(g)) && Added(g).id == g.Id() && Added(g).hasRun;
      hide Execute, Normalize, DbOp, Adds, Plan;
      ExecuteKeepsValid(s, g, e.f, e.now, e.stale);
    }
  }

  /** While all three wheels run and no request stores an invalid task, rows and wheels agree over every
      run of requests and ticks, whichever calls to the repositories fail, those of the rollback included. */
  lemma {:induction false} ValidRunsKeepConsistent(s: Service, es: seq<Event>)
    requires Consistent(s) && AllRepeat(s) && AllValid(s)
    requires forall k :: 0 <= k < |es| ==> PeriodicEvent(es[k]) && ValidEvent(RunService(s, es[..k]), es[k])
    ensures Consistent(RunService(s, es)) && AllRepeat(RunService(s, es)) && AllValid(RunService(s, es))
  {
    if es != [] {
      var n := |es| - 1;
      forall k | 0 <= k < n ensures ValidEvent(RunService(s, es[..n][..k]), es[..n][k]) {
        assert es[..n][..k] == es[..k];
      }
      ValidRunsKeepConsistent(s, es[..n]);
      hide AllRepeat, AllValid, ValidEvent, SafeEvent, EventStep;
      var m := RunService(s, es[..n]);
      assert ValidEvent(m, es[n]);
      ValidEventIsSafe(m, es[n]);
      EventKeepsConsistentIff(m, es[n]);
      EventKeepsRepeat(m, es[n]);
    }
  }

  // ---------- The operation log ----------

  /** What the newest log entry says of the request: its status tells the outcome, unless writing it
      failed, and then it still reads pending. */
  lemma LogTellsOutcome(s: Service, g: Saga, f: Faults, now: int, stale: bool)
    ensures var (s', o) := Execute(s, g, f, now, stale);
            if o == NotLogged then s' == s
            else
              && |s'.log| == |s.log| + 1 && s'.log[..|s.log|] == s.log
              && var e := s'.log[|s.log|];
                 && e.id == g.Id() && e.kind == g.Kind()
                 && (e.status == Pending <==> f.logUpdate)
                 && (e.status == Completed ==> o == Done)
                 && (e.status == RollbackFailed ==> o == Stuck)
                 && (e.status == Failed ==> o == DbFailed || o == RolledBack)
  {
  }

  /** Some operation on this task is logged as pending, as stuck, or as a failed update. */
  ghost predicate Blamed(log: seq<LogEntry>, id: string) {
    exists k :: 0 <= k < |log| && log[k].id == id &&
      (log[k].status == Pending || log[k].status == RollbackFailed || (log[k].status == Failed && log[k].kind == OpUpdate))
  }

  ghost predicate Accounted(s: Service) {
    RowsOk(s.db) && forall id :: Agrees(s, id) || Blamed(s.log, id)
  }

  lemma BlameStays(log: seq<LogEntry>, longer: seq<LogEntry>, id: string)
    requires |log| <= |longer| && longer[..|log|] == log && Blamed(log, id)
    ensures Blamed(longer, id)
  {
    var k :| 0 <= k < |log| && log[k].id == id &&
      (log[k].status == Pending || log[k].status == RollbackFailed || (log[k].status == Failed && log[k].kind == OpUpdate));
    assert longer[k] == longer[..|log|][k];
  }

  lemma ExecuteBlames(s: Service, g: Saga, f: Faults, now: int, stale: bool, id: string)
    requires RowsOk(s.db) && Fresh(s, g) && (Agrees(s, id) || Blamed(s.log, id))
    ensures var s' := Execute(s, g, f, now, stale).0; Agrees(s', id) || Blamed(s'.log, id)
  {
    var (s', o) := Execute(s, g, f, now, stale);
    LogTellsOutcome(s, g, f, now, stale);
    CleanFailureUndoes(s, g, f, now, stale);
    if Blamed(s.log, id) {
      BlameStays(s.log, s'.log, id);
    } else if id != g.Id() {
      DbOpKeepsRowsOk(s.db, g);
      WheelOpFramesOthers(s.levels, g, now, stale, id);
      hide WheelOp, DbOp;
      SameLevelsAgree(s.levels, s'.levels, id);
    } else if o == Done {
      DoneAgrees(s, g, now, stale);
    } else if o == Stuck || (o == RolledBack && g.Update?) {
      hide WheelOp, DbOp, RollbackDb;
      assert s'.log[|s.log|].id == id;
    }
  }

  lemma EventKeepsAccounted(s: Service, e: Event)
    requires Accounted(s) && AllRepeat(s) && PeriodicEvent(e)
    ensures Accounted(EventStep(s, e)) && AllRepeat(EventStep(s, e))
  {
    var s' := EventStep(s, e);
    EventKeepsRepeat(s, e);
    if e.Call? {
      if Plan(s, e.q, e.f).1.Some? {
        PlanIsFresh(s, e.q, e.f);
        hide Execute, Fresh, AllRepeat, Agrees;
        forall id ensures Agrees(s', id) || Blamed(s'.log, id) {
          ExecuteBlames(s, Plan(s, e.q, e.f).1.value, e.f, e.now, e.stale, id);
        }
      }
    } else {
      hide W.TickStep;
      forall x: Level, id ensures s'.levels.Has(x, id) == s.levels.Has(x, id) {
        TickKeepsIds(s, e.level, e.at, e.outcomes, x, id);
      }
      forall id ensures Agrees(s', id) || Blamed(s'.log, id) {
        SameLevelsAgree(s.levels, s'.levels, id);
      }
    }
  }

  /** Whatever calls fail, over every run of requests and ticks: a task about which rows and wheels
      disagree has an entry in the operation log that is pending, stuck, or a failed update. */
  lemma {:induction false} RunKeepsAccounted(s: Service, es: seq<Event>)
    requires Accounted(s) && AllRepeat(s) && forall k :: 0 <= k < |es| ==> PeriodicEvent(es[k])
    ensures Accounted(RunService(s, es)) && AllRepeat(RunService(s, es))
  {
    if es != [] {
      RunKeepsAccounted(s, es[..|es| - 1]);
      EventKeepsAccounted(RunService(s, es[..|es| - 1]), es[|es| - 1]);
    }
  }

  /** The restriction to periodic tasks is needed: a Once task leaves its wheel when it has run, and
      its row stays enabled. */
  lemma OnceTaskLeavesWheel(id: string, t: Task, at: int, r: AlarmResult)
    requires IsNormal(t) && t.id == id && t.mode == Once && t.priority == 0
    ensures var w := W.WheelState(map[], 0, true);
            var e := W.NewEntry(t, at - t.interval, HIGH_CONFIG, false);
            var hi := W.WheelState(map[id := e], e.slotIndex - 1, true);
            var s := Service(map[id := Row(t, true, false)], Levels(hi, w, w), []);
            Agrees(s, id) && !Agrees(EventStep(s, Elapse(High, at, _ => Returned(r))), id)
  {
    var w := W.WheelState(map[], 0, true);
    var e := W.NewEntry(t, at - t.interval, HIGH_CONFIG, false);
    var hi := W.WheelState(map[id := e], e.slotIndex - 1, true);
    var s := Service(map[id := Row(t, true, false)], Levels(hi, w, w), []);
    assert s.levels.Has(High, id);
    assert W.CurrentSlot(hi, HIGH_CONFIG) == e.slotIndex;
    var s' := EventStep(s, Elapse(High, at, _ => Returned(r)));
    assert !s'.levels.Has(High, id) && !s'.levels.Has(Normal, id) && !s'.levels.Has(Low, id);
  }
}
