/** The paused flag in two places: in the row of a task and in its wheel entry, which starts with the
    flag of the node that the free pool handed out. */
module FlagSpec {
  import opened TaskModel
  import W = WheelSpec
  import opened LevelSpec
  import opened ServiceSpec

  // ---------- The paused flag ----------

  /** The row and the wheel entries of one id agree about the paused flag. */
  predicate FlagAgrees(s: Service, id: string) {
    forall x: Level :: s.levels.Has(x, id) && id in s.db ==> s.levels.At(x).view[id].paused == s.db[id].paused
  }

  lemma AddedFlag(l: Levels, t: Task, now: int, stale: bool)
    requires LevelSpec.AddResult(l, Some(t)).Ok? && !l.InWheel(t.id)
    ensures var l' := AddStep(l, Some(t), now, stale);
            && l'.Has(LevelOf(t.priority), t.id)
            && forall x: Level :: l'.Has(x, t.id) ==> x == LevelOf(t.priority) && l'.At(x).view[t.id].paused == stale
  {
    NormalizeYieldsNormal(Some(t));
    var l', y := AddStep(l, Some(t), now, stale), LevelOf(t.priority);
    forall x: Level | l'.Has(x, t.id) ensures x == y && l'.At(x).view[t.id].paused == stale {
      assert !l.Has(x, t.id);
    }
  }

  /** A completed operation leaves the flags in agreement exactly when it did not add an entry on a
      node that carried a stale paused flag. */
  lemma FlagAgreesUnlessStale(s: Service, g: Saga, now: int, stale: bool)
    requires RowsOk(s.db) && Agrees(s, g.Id()) && FlagAgrees(s, g.Id()) && Fresh(s, g) && DbOp(s.db, g).Some?
    requires WheelOp(s.levels, g, now, stale).0
    ensures FlagAgrees(Service(DbOp(s.db, g).value, WheelOp(s.levels, g, now, stale).1, s.log), g.Id())
            <==> (Adds(s.levels, g) ==> !stale)
  {
    var l, id := s.levels, g.Id();
    var l' := WheelOp(l, g, now, stale).1;
    LookupFinds(l, id);
    RemoveClears(l, id, id);
    if Adds(l, g) {
      var base := if g.Update? then RemoveStep(l, id) else l;
      var t := if g.Update? then Apply(g.row.task, g.edit) else g.row.task;
      AddedFlag(base, t, now, stale);
      assert l'.Has(LevelOf(t.priority), id);
    } else {
      NotAddedFlag(s, g, now, stale);
    }
  }

  lemma NotAddedFlag(s: Service, g: Saga, now: int, stale: bool)
    requires RowsOk(s.db) && Agrees(s, g.Id()) && FlagAgrees(s, g.Id()) && Fresh(s, g) && DbOp(s.db, g).Some?
    requires WheelOp(s.levels, g, now, stale).0 && !Adds(s.levels, g)
    ensures FlagAgrees(Service(DbOp(s.db, g).value, WheelOp(s.levels, g, now, stale).1, s.log), g.Id())
  {
    var l, id := s.levels, g.Id();
    var l', db' := WheelOp(l, g, now, stale).1, DbOp(s.db, g).value;
    LookupFinds(l, id);
    RemoveClears(l, id, id);
    forall x: Level | l'.Has(x, id) && id in db' ensures l'.At(x).view[id].paused == db'[id].paused {
      if g.Pause? || (g.Resume? && g.row.enabled) {
        assert l.Has(x, id) && l.Has(Target(l, id), id);
      }
    }
  }

  // ---------- Frozen tasks ----------

  predicate SameEntries(l: Levels, l': Levels, id: string) {
    forall x: Level :: l.Has(x, id) == l'.Has(x, id) && (l.Has(x, id) ==> l.At(x).view[id] == l'.At(x).view[id])
  }

  lemma StepsKeepEntries(l: Levels, y: string, now: int, id: string)
    requires y != id
    ensures SameEntries(l, RemoveStep(l, y), id)
    ensures SameEntries(l, PauseStep(l, y), id)
    ensures SameEntries(l, ResumeStep(l, y, now), id)
  {
  }

  lemma TryAddKeepsEntries(l: Levels, t: Task, now: int, stale: bool, id: string)
    requires t.id != id
    ensures SameEntries(l, TryAdd(l, t, now, stale).1, id)
  {
    if Normalize(Some(t)).Ok? {
      NormalizeYieldsNormal(Some(t));
    }
  }

  lemma WheelOpKeepsEntries(l: Levels, g: Saga, now: int, stale: bool, id: string)
    requires id != g.Id()
    ensures SameEntries(l, WheelOp(l, g, now, stale).1, id)
  {
    hide TryAdd, RemoveStep, PauseStep, ResumeStep, LookupIn;
    StepsKeepEntries(l, g.Id(), now, id);
    TryAddKeepsEntries(l, g.row.task, now, stale, id);
    if g.Update? {
      TryAddKeepsEntries(RemoveStep(l, g.Id()), Apply(g.row.task, g.edit), now, stale, id);
    }
  }

  /** The row says that the task runs, and every wheel entry of it is paused. */
  ghost predicate Frozen(s: Service, id: string) {
    && id in s.db && s.db[id].enabled && !s.db[id].paused && s.levels.InWheel(id)
    && forall x: Level :: s.levels.Has(x, id) ==> s.levels.At(x).view[id].paused
  }

  /** A Delete, Disable, Pause or Update of this task fails before it reaches the wheel. Create, Enable
      and Resume are not restricted, and neither are requests about other tasks. */
  predicate Spares(e: Event, id: string) {
    e.Call? && !e.q.CreateReq? && !e.q.EnableReq? && !e.q.ResumeReq? && e.q.id == id ==>
      e.f.read || e.f.logCreate || e.f.dbOp
  }

  predicate Generates(e: Event) {
    e.Call? && e.q.CreateReq? ==> e.q.generated != ""
  }

  /** How often the callback of `id` returned during an event. */
  function Completions(s: Service, e: Event, id: string): nat {
    match e
    case Elapse(x, at, outcomes) => W.Completions(s.levels.At(x), W.Tick(at, outcomes), id, ConfigOf(x))
    case Call(_, _, _, _) => 0
  }

  function TotalCompletions(s: Service, es: seq<Event>, id: string): nat {
    if es == [] then 0
    else
      var n := |es| - 1;
      TotalCompletions(s, es[..n], id) + Completions(RunService(s, es[..n]), es[n], id)
  }

  lemma TickKeepsPaused(s: Service, x: Level, at: int, outcomes: string -> RunOutcome, id: string)
    requires forall y: Level :: s.levels.Has(y, id) ==> s.levels.At(y).view[id].paused
    ensures SameEntries(s.levels, EventStep(s, Elapse(x, at, outcomes)).levels, id)
    ensures Completions(s, Elapse(x, at, outcomes), id) == 0
  {
  }

  lemma CallKeepsFrozen(s: Service, e: Event, id: string)
    requires e.Call? && RowsOk(s.db) && Frozen(s, id) && Spares(e, id) && Generates(e)
    ensures var s' := EventStep(s, e);
            RowsOk(s'.db) && id in s'.db && s'.db[id] == s.db[id] && SameEntries(s.levels, s'.levels, id)
  {
    if Plan(s, e.q, e.f).1.Some? {
      var g := Plan(s, e.q, e.f).1.value;
      PlanIsFresh(s, e.q, e.f);
      ExecuteKeepsRowsOk(s, g, e.f, e.now, e.stale);
      if g.Id() == id {
        assert e.f.logCreate || e.f.dbOp || DbOp(s.db, g).None?;
      } else {
        CleanFailureUndoes(s, g, e.f, e.now, e.stale);
        DbOpKeepsRowsOk(s.db, g);
        WheelOpKeepsEntries(s.levels, g, e.now, e.stale, id);
        hide WheelOp, DbOp, Plan;
      }
    }
  }

  lemma FrozenStep(s: Service, e: Event, id: string)
    requires RowsOk(s.db) && Frozen(s, id) && Spares(e, id) && Generates(e)
    ensures var s' := EventStep(s, e);
            RowsOk(s'.db) && Frozen(s', id) && SameEntries(s.levels, s'.levels, id) && Completions(s, e, id) == 0
  {
    if e.Call? {
      CallKeepsFrozen(s, e, id);
      hide EventStep;
    } else {
      TickKeepsPaused(s, e.level, e.at, e.outcomes, id);
      hide W.TickStep;
    }
    FrozenEntries(s.levels, EventStep(s, e).levels, id);
  }

  lemma FrozenEntries(l: Levels, l': Levels, id: string)
    requires SameEntries(l, l', id)
    ensures l.InWheel(id) == l'.InWheel(id)
  {
    assert l.Has(High, id) == l'.Has(High, id);
    assert l.Has(Normal, id) == l'.Has(Normal, id);
    assert l.Has(Low, id) == l'.Has(Low, id);
  }

  /** A frozen task never runs and stays frozen over every run of requests and ticks in which no Delete,
      Disable, Pause or Update of it gets through; resuming or enabling it does not help. */
  lemma {:induction false} FrozenNeverRuns(s: Service, es: seq<Event>, id: string)
    requires RowsOk(s.db) && Frozen(s, id)
    requires forall k :: 0 <= k < |es| ==> Spares(es[k], id) && Generates(es[k])
    ensures var s' := RunService(s, es);
            RowsOk(s'.db) && Frozen(s', id) && SameEntries(s.levels, s'.levels, id)
    ensures TotalCompletions(s, es, id) == 0
  {
    if es != [] {
      hide Frozen, EventStep, Completions;
      var n := |es| - 1;
      FrozenNeverRuns(s, es[..n], id);
      FrozenStep(RunService(s, es[..n]), es[n], id);
    }
  }

  /** What does help is to pause it first: then row and entry agree, and Resume reaches the entry. */
  lemma PauseThenResumeRevives(s: Service, id: string, now: int, stale: bool, now': int, stale': bool)
    requires RowsOk(s.db) && Frozen(s, id) && s.levels.AtMostOnce(id)
    ensures var (s1, o1) := Handle(s, PauseReq(id), NO_FAULTS, now, stale);
            var (s2, o2) := Handle(s1, ResumeReq(id), NO_FAULTS, now', stale');
            && o1 == Done && o2 == Done && id in s2.db && s2.db[id] == s.db[id]
            && s2.levels.InWheel(id) && forall x: Level :: s2.levels.Has(x, id) ==> !s2.levels.At(x).view[id].paused
  {
    LookupFinds(s.levels, id);
    var (s1, o1) := Handle(s, PauseReq(id), NO_FAULTS, now, stale);
    FlagsKeepLevels(s.levels, id, now, id);
    SameLevelsAgree(s.levels, s1.levels, id);
    LookupFinds(s1.levels, id);
    var (s2, o2) := Handle(s1, ResumeReq(id), NO_FAULTS, now', stale');
    FlagsKeepLevels(s1.levels, id, now', id);
    SameLevelsAgree(s1.levels, s2.levels, id);
    var x := Target(s1.levels, id);
    assert s1.levels.Has(x, id) && !s2.levels.At(x).view[id].paused;
  }

  // ---------- Where stale nodes come from ----------

  /** The level whose pool gets a paused node back from an operation that reaches the wheels. */
  function Releases(s: Service, g: Saga, f: Faults): set<Level> {
    if f.logCreate || f.dbOp || DbOp(s.db, g).None? then {}
    else if g.Delete? || g.Disable? || (g.Update? && g.row.enabled && !g.row.paused) then
      if LookupIn(s.levels, g.Id()).Ok? && LookupIn(s.levels, g.Id()).value.paused then {Target(s.levels, g.Id())} else {}
    else {}
  }

  /** One event next to the pools of the levels: `dirty` are the levels with a paused node in their pool.
      A new entry is stale only if its level is, and only released nodes make a level dirty. Ticks
      release nodes of tasks that ran. */
  predicate PoolEvent(s: Service, dirty: set<Level>, e: Event, dirty': set<Level>) {
    if e.Call? && Plan(s, e.q, e.f).1.Some? then
      var g := Plan(s, e.q, e.f).1.value;
      && (e.stale && Adds(s.levels, g) ==> LevelOf(Added(g).priority) in dirty + Releases(s, g, e.f))
      && dirty' <= dirty + Releases(s, g, e.f)
    else dirty' <= dirty
  }

  /** A paused task that is in a wheel gets deleted or disabled. */
  predicate RemovesPaused(s: Service, e: Event) {
    && e.Call? && Plan(s, e.q, e.f).1.Some? && !e.f.logCreate && !e.f.dbOp
    && var g := Plan(s, e.q, e.f).1.value;
       (g.Delete? || g.Disable?) && g.row.paused && s.levels.InWheel(g.Id())
  }

  ghost predicate FlagsAgree(s: Service) {
    forall id :: FlagAgrees(s, id)
  }

  lemma ReleasesNothing(s: Service, e: Event)
    requires Consistent(s) && FlagsAgree(s) && !RemovesPaused(s, e) && e.Call? && Plan(s, e.q, e.f).1.Some?
    requires e.q.CreateReq? ==> e.q.generated != ""
    ensures Releases(s, Plan(s, e.q, e.f).1.value, e.f) == {}
  {
    var g := Plan(s, e.q, e.f).1.value;
    PlanIsFresh(s, e.q, e.f);
    LookupFinds(s.levels, g.Id());
    assert FlagAgrees(s, g.Id());
    hide Plan, DbOp, Execute;
    if LookupIn(s.levels, g.Id()).Ok? && !g.Create? {
      var x := Target(s.levels, g.Id());
      assert s.levels.Has(x, g.Id()) && s.levels.At(x).view[g.Id()].paused == g.row.paused;
    }
  }

  lemma ExecuteKeepsOtherFlags(s: Service, g: Saga, f: Faults, now: int, stale: bool, id: string)
    requires RowsOk(s.db) && Fresh(s, g) && FlagAgrees(s, id) && id != g.Id()
    ensures FlagAgrees(Execute(s, g, f, now, stale).0, id)
  {
    CleanFailureUndoes(s, g, f, now, stale);
    DbOpKeepsRowsOk(s.db, g);
    WheelOpKeepsEntries(s.levels, g, now, stale, id);
    hide WheelOp, DbOp;
  }

  lemma ExecuteKeepsOwnFlag(s: Service, g: Saga, f: Faults, now: int, stale: bool)
    requires RowsOk(s.db) && Agrees(s, g.Id()) && FlagAgrees(s, g.Id()) && Fresh(s, g) && Safe(s, g, f) && (Adds(s.levels, g) ==> !stale)
    ensures FlagAgrees(Execute(s, g, f, now, stale).0, g.Id())
  {
    CleanFailureUndoes(s, g, f, now, stale);
    OutcomeTellsSafety(s, g, f, now, stale);
    if DbOp(s.db, g).Some? {
      WheelOpSucceedsIff(s, g, now, stale);
      if WheelOp(s.levels, g, now, stale).0 {
        FlagAgreesUnlessStale(s, g, now, stale);
      }
    }
    hide WheelOp, DbOp, RollbackDb, Adds;
  }

  /** Executing a safe operation on fresh nodes keeps the flags in agreement, however it ends. */
  lemma ExecuteKeepsFlags(s: Service, g: Saga, f: Faults, now: int, stale: bool)
    requires Consistent(s) && FlagsAgree(s) && Fresh(s, g) && Safe(s, g, f) && (Adds(s.levels, g) ==> !stale)
    ensures FlagsAgree(Execute(s, g, f, now, stale).0)
  {
    assert Agrees(s, g.Id());
    hide Execute, Agrees, FlagAgrees, Fresh, Safe, Adds;
    forall id ensures FlagAgrees(Execute(s, g, f, now, stale).0, id) {
      assert FlagAgrees(s, id);
      if id == g.Id() {
        ExecuteKeepsOwnFlag(s, g, f, now, stale);
      } else {
        ExecuteKeepsOtherFlags(s, g, f, now, stale, id);
      }
    }
  }

  lemma EventKeepsFlags(s: Service, dirty: set<Level>, e: Event, dirty': set<Level>)
    requires Consistent(s) && AllRepeat(s) && FlagsAgree(s) && dirty == {}
    requires PeriodicEvent(e) && SafeEvent(s, e) && PoolEvent(s, dirty, e, dirty') && !RemovesPaused(s, e)
    ensures FlagsAgree(EventStep(s, e)) && dirty' == {}
  {
    if e.Call? {
      if Plan(s, e.q, e.f).1.Some? {
        PlanIsFresh(s, e.q, e.f);
        ReleasesNothing(s, e);
        hide Execute, FlagsAgree, Consistent, Safe, AllRepeat, Adds, Fresh;
        ExecuteKeepsFlags(s, Plan(s, e.q, e.f).1.value, e.f, e.now, e.stale);
      }
    } else {
      TickKeepsFlags(s, e.level, e.at, e.outcomes);
    }
  }

  lemma TickKeepsFlags(s: Service, x: Level, at: int, outcomes: string -> RunOutcome)
    requires FlagsAgree(s)
    ensures FlagsAgree(EventStep(s, Elapse(x, at, outcomes)))
  {
    var s' := EventStep(s, Elapse(x, at, outcomes));
    forall id ensures FlagAgrees(s', id) {
      assert FlagAgrees(s, id);
      forall y: Level | s'.levels.Has(y, id) && id in s'.db ensures s'.levels.At(y).view[id].paused == s'.db[id].paused {
        assert s.levels.Has(y, id);
        hide W.ShouldReschedule, W.Completed, W.SlotFor;
      }
    }
  }

  /** `dirty` follows the pools through a run of events. */
  ghost predicate IsPoolTrace(s: Service, es: seq<Event>, dirty: seq<set<Level>>) {
    |dirty| == |es| + 1 && forall k :: 0 <= k < |es| ==> PoolEvent(RunService(s, es[..k]), dirty[k], es[k], dirty[k + 1])
  }

  ghost predicate NeverRemovesPaused(s: Service, es: seq<Event>) {
    forall k :: 0 <= k < |es| ==> !RemovesPaused(RunService(s, es[..k]), es[k])
  }

  lemma TraceStep(s: Service, es: seq<Event>, dirty: seq<set<Level>>)
    requires es != [] && IsPoolTrace(s, es, dirty) && NeverRemovesPaused(s, es)
    ensures var n := |es| - 1;
            && IsPoolTrace(s, es[..n], dirty[..n + 1]) && NeverRemovesPaused(s, es[..n])
            && PoolEvent(RunService(s, es[..n]), dirty[n], es[n], dirty[n + 1]) && !RemovesPaused(RunService(s, es[..n]), es[n])
  {
    hide PoolEvent, RemovesPaused, RunService;
    var n := |es| - 1;
    assert forall k :: 0 <= k <= n ==> es[..n][..k] == es[..k];
    forall k | 0 <= k < n
      ensures PoolEvent(RunService(s, es[..n][..k]), dirty[..n + 1][k], es[..n][k], dirty[..n + 1][k + 1])
      ensures !RemovesPaused(RunService(s, es[..n][..k]), es[..n][k])
    {
      assert PoolEvent(RunService(s, es[..k]), dirty[k], es[k], dirty[k + 1]);
    }
    assert PoolEvent(RunService(s, es[..n]), dirty[n], es[n], dirty[n + 1]);
  }

  /** Over every run of safe events in which no paused task is deleted or disabled, starting with clean
      pools: rows and wheels agree about every paused flag, and the pools stay clean. */
  lemma {:induction false} RunKeepsFlags(s: Service, es: seq<Event>, dirty: seq<set<Level>>)
    requires Consistent(s) && AllRepeat(s) && FlagsAgree(s)
    requires forall k :: 0 <= k < |es| ==> PeriodicEvent(es[k])
    requires SafeThroughout(s, es) && NeverRemovesPaused(s, es) && IsPoolTrace(s, es, dirty) && dirty[0] == {}
    ensures FlagsAgree(RunService(s, es)) && dirty[|es|] == {}
  {
    if es != [] {
      hide FlagsAgree, Consistent, AllRepeat, SafeEvent, PeriodicEvent, PoolEvent, RemovesPaused, EventStep;
      var n := |es| - 1;
      ThroughoutStep(s, es);
      TraceStep(s, es, dirty);
      hide SafeThroughout, NeverRemovesPaused, IsPoolTrace;
      RunKeepsFlags(s, es[..n], dirty[..n + 1]);
      RunKeepsConsistentIff(s, es[..n]);
      RunKeepsRepeat(s, es[..n]);
      ThroughoutEnds(s, es[..n]);
      EventKeepsFlags(RunService(s, es[..n]), dirty[n], es[n], dirty[n + 1]);
    }
  }

  lemma ThroughoutEnds(s: Service, es: seq<Event>)
    requires AgreesThroughout(s, es)
    ensures Consistent(RunService(s, es))
  {
    assert es[..|es|] == es;
  }

  /** The condition is exact: after a paused task was deleted, the next task of its level can be frozen
      from the start. */
  lemma RemovingPausedCanFreeze(s: Service, id: string, t: Task, now: int, now': int) returns (x: Level)
    requires Consistent(s) && AllValid(s) && FlagsAgree(s)
    requires id in s.db && s.db[id].paused && s.levels.InWheel(id)
    requires t.id != "" && t.id !in s.db && t.hasRun && ValidTask(t)
    requires LevelOf(t.priority) == Target(s.levels, id)
    ensures var del := Call(DeleteReq(id), NO_FAULTS, now, false);
            var s1 := EventStep(s, del);
            var create := Call(CreateReq(t, true, "none"), NO_FAULTS, now', true);
            && RemovesPaused(s, del) && PoolEvent(s, {}, del, {x}) && PoolEvent(s1, {x}, create, {})
            && Frozen(EventStep(s1, create), t.id)
  {
    x := Target(s.levels, id);
    var g := Saga.Delete(s.db[id]);
    LookupFinds(s.levels, id);
    assert Agrees(s, id) && FlagAgrees(s, id) && Agrees(s, t.id);
    assert s.levels.Has(x, id);
    var del := Call(DeleteReq(id), NO_FAULTS, now, false);
    var s1 := EventStep(s, del);
    assert s1.levels == RemoveStep(s.levels, id) && s1.db == s.db - {id};
    assert Releases(s, g, NO_FAULTS) == {x};
    RemoveClears(s.levels, id, t.id);
    SameLevelsAgree(s.levels, s1.levels, t.id);
    RemoveKeepsRunning(s.levels, id, x);
    AddSucceedsIff(s1.levels, t);
    AddedFlag(s1.levels, t, now', true);
    hide RemoveStep, LookupIn, AddStep, LevelSpec.AddResult, Normalize;
  }
}
