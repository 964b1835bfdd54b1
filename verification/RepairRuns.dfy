/** Repairs among requests and ticks: when a repair brings rows and wheels into agreement, and runs in
    which repairs take place. */
module RepairRuns {
  import opened TaskModel
  import opened LevelSpec
  import opened ServiceSpec
  import opened RepairSpec
  import opened FlagSpec
  import opened ServiceMeaning

  function Repaired(s: Service, page: seq<Row>, listed: seq<string>, now: int, stale: nat -> bool): Service {
    s.(levels := Repair(s.levels, page, listed, now, stale))
  }

  /** What a repair needs of one enabled row: if it is not paused, it is on the page and in a wheel or
      can be added; if it is on the page, it is not in two wheels. */
  predicate Mendable(s: Service, page: seq<Row>, id: string) {
    id in EnabledIds(s.db) ==>
      && (!s.db[id].paused ==> id in Ids(page) && (s.levels.InWheel(id) || CanAdd(s.levels, s.db[id].task)))
      && (id in Ids(page) ==> s.levels.AtMostOnce(id))
  }

  lemma RepairAgreesIff(s: Service, page: seq<Row>, listed: seq<string>, now: int, stale: nat -> bool, id: string)
    requires NoEmptyIds(s.levels) && IsPage(s.db, page) && IsListing(s.levels, listed)
    ensures Agrees(Repaired(s, page, listed, now, stale), id) <==> Mendable(s, page, id)
  {
    var l, l' := s.levels, Repair(s.levels, page, listed, now, stale);
    PageIsComplete(s.db, page);
    RepairPointwise(l, s.db, page, listed, now, stale, id);
    if SameLevels(l, l', id) {
      SameLevelsAgree(l, l', id);
    }
    NowhereIsOnce(l, id);
    NowhereIsOnce(l', id);
    hide Repair, CanAdd, IsPage, IsListing;
  }

  lemma NowhereIsOnce(l: Levels, id: string)
    ensures !l.InWheel(id) ==> l.AtMostOnce(id)
  {
    if !l.InWheel(id) {
      assert !l.Has(High, id) && !l.Has(Normal, id) && !l.Has(Low, id);
    }
  }

  /** From any state of the wheels: rows and wheels agree after a repair exactly if every row is mendable. */
  lemma RepairIsConsistentIff(s: Service, page: seq<Row>, listed: seq<string>, now: int, stale: nat -> bool)
    requires RowsOk(s.db) && NoEmptyIds(s.levels) && IsPage(s.db, page) && IsListing(s.levels, listed)
    ensures Consistent(Repaired(s, page, listed, now, stale)) <==> forall id :: Mendable(s, page, id)
  {
    var s' := Repaired(s, page, listed, now, stale);
    hide Repair, Agrees, Mendable, IsPage, IsListing;
    forall id ensures Agrees(s', id) <==> Mendable(s, page, id) {
      RepairAgreesIff(s, page, listed, now, stale, id);
    }
  }

  /** So with at most a page of enabled rows that can all be added and are not in two wheels, everything
      that is proved of runs from an agreeing state holds after a repair. */
  lemma RepairRestores(s: Service, page: seq<Row>, listed: seq<string>, now: int, stale: nat -> bool)
    requires RowsOk(s.db) && NoEmptyIds(s.levels) && IsPage(s.db, page) && IsListing(s.levels, listed)
    requires |EnabledIds(s.db)| <= 10000
    requires forall id :: id in EnabledIds(s.db) ==>
               s.levels.AtMostOnce(id) && (!s.db[id].paused ==> s.levels.InWheel(id) || CanAdd(s.levels, s.db[id].task))
    ensures Consistent(Repaired(s, page, listed, now, stale))
  {
    PageIsComplete(s.db, page);
    hide IsPage, IsListing, CanAdd;
    RepairIsConsistentIff(s, page, listed, now, stale);
  }

  // ---------- What a repair enters ----------

  /** The task is entered, on a node with some flag. */
  ghost predicate Entered(l: Levels, t: Task, now: int) {
    exists stale :: EnteredAs(l, t, now, stale)
  }

  lemma EntriesDecide(l: Levels, l': Levels, t: Task, now: int)
    requires SameEntries(l, l', t.id) && Entered(l, t, now)
    ensures Entered(l', t, now)
  {
    var stale :| EnteredAs(l, t, now, stale);
    assert EnteredAs(l', t, now, stale);
  }

  lemma EntriesChain(l: Levels, m: Levels, n: Levels, id: string)
    requires SameEntries(l, m, id) && SameEntries(m, n, id)
    ensures SameEntries(l, n, id)
  {
  }

  lemma {:induction false} AddMissingMeans(l: Levels, rows: seq<Row>, seen: set<string>, now: int, stale: nat -> bool, id: string)
    requires forall i, j :: 0 <= i < j < |rows| ==> rows[i].task.id != rows[j].task.id
    requires id in seen <==> l.InWheel(id)
    ensures var l' := AddMissing(l, rows, seen, now, stale);
            && (id in seen || (forall i :: 0 <= i < |rows| && rows[i].task.id == id ==> rows[i].paused || !CanAdd(l, rows[i].task)) ==>
                  SameEntries(l, l', id))
            && (forall i :: 0 <= i < |rows| && rows[i].task.id == id && id !in seen && !rows[i].paused && CanAdd(l, rows[i].task) ==>
                  Entered(l', rows[i].task, now))
  {
    if rows != [] {
      var n := |rows| - 1;
      var m, row := AddMissing(l, rows[..n], seen, now, stale), rows[n];
      AddMissingMeans(l, rows[..n], seen, now, stale, id);
      AddMissingPointwise(l, rows[..n], seen, now, stale, id);
      hide CanAdd, AddStep;
      if !row.paused && row.task.id !in seen {
        if row.task.id != id {
          TryAddKeepsEntries(m, row.task, now, stale(n), id);
          AfterOther(l, m, rows, n, seen, now, stale, id);
        } else {
          assert SameEntries(l, m, id);
          OwnAdd(l, m, row.task, now, stale(n));
        }
      }
    }
  }

  lemma AfterOther(l: Levels, m: Levels, rows: seq<Row>, n: nat, seen: set<string>, now: int, stale: nat -> bool, id: string)
    requires n < |rows| && rows[n].task.id != id && SameEntries(m, AddStep(m, Some(rows[n].task), now, stale(n)), id)
    ensures var l' := AddStep(m, Some(rows[n].task), now, stale(n));
            && (SameEntries(l, m, id) ==> SameEntries(l, l', id))
            && forall i :: 0 <= i < n && rows[i].task.id == id && Entered(m, rows[i].task, now) ==> Entered(l', rows[i].task, now)
  {
    var l' := AddStep(m, Some(rows[n].task), now, stale(n));
    hide AddStep;
    if SameEntries(l, m, id) {
      EntriesChain(l, m, l', id);
    }
    forall i | 0 <= i < n && rows[i].task.id == id && Entered(m, rows[i].task, now) ensures Entered(l', rows[i].task, now) {
      EntriesDecide(m, l', rows[i].task, now);
    }
  }

  lemma OwnAdd(l: Levels, m: Levels, t: Task, now: int, stale: bool)
    requires SameEntries(l, m, t.id) && !l.InWheel(t.id) && SameRunning(l, m)
    ensures CanAdd(l, t) ==> Entered(AddStep(m, Some(t), now, stale), t, now)
    ensures !CanAdd(l, t) ==> SameEntries(l, AddStep(m, Some(t), now, stale), t.id)
  {
    FrozenEntries(l, m, t.id);
    AddSucceedsIff(m, t);
    assert CanAdd(l, t) == CanAdd(m, t);
    hide CanAdd;
    if CanAdd(l, t) {
      AddedIsEntered(m, t, now, stale);
      assert EnteredAs(AddStep(m, Some(t), now, stale), t, now, stale);
    } else {
      TryAddEnters(m, t, now, stale, t.id);
    }
    hide EnteredAs, AddStep, LevelSpec.AddResult;
  }

  lemma {:induction false} RemoveOrphansKeepsEntries(l: Levels, listed: seq<string>, keep: set<string>, id: string)
    requires id in keep
    ensures SameEntries(l, RemoveOrphans(l, listed, keep), id)
  {
    if listed != [] {
      var n := |listed| - 1;
      RemoveOrphansKeepsEntries(l, listed[..n], keep, id);
      if listed[n] !in keep {
        StepsKeepEntries(RemoveOrphans(l, listed[..n], keep), listed[n], 0, id);
        hide RemoveStep;
      }
    }
  }

  /** What a repair makes of one task, from any state of the wheels: off the page it is in no wheel; a task
      of the page that is in a wheel stays exactly as it is; one that is not, is entered with the definition
      of its row if it is not paused and can be added. */
  lemma RepairMeans(s: Service, page: seq<Row>, listed: seq<string>, now: int, stale: nat -> bool, id: string)
    requires NoEmptyIds(s.levels) && IsPage(s.db, page) && IsListing(s.levels, listed)
    ensures var l, l' := s.levels, Repaired(s, page, listed, now, stale).levels;
            if id !in Ids(page) then !l'.InWheel(id)
            else if l.InWheel(id) then SameEntries(l, l', id)
            else if !s.db[id].paused && CanAdd(l, s.db[id].task) then Entered(l', s.db[id].task, now)
            else !l'.InWheel(id)
  {
    var l := s.levels;
    var m := AddMissing(l, page, Elements(listed), now, stale);
    var l' := Repaired(s, page, listed, now, stale).levels;
    ListedIds(l, listed, id);
    RepairPointwise(l, s.db, page, listed, now, stale, id);
    AddMissingMeans(l, page, Elements(listed), now, stale, id);
    if id in Ids(page) {
      var i :| 0 <= i < |page| && page[i].task.id == id;
      assert s.db[id] == page[i];
      RemoveOrphansKeepsEntries(m, listed, Ids(page), id);
      hide CanAdd, AddMissing, RemoveOrphans, Entered, IsListing;
      if l.InWheel(id) {
        EntriesChain(l, m, l', id);
      } else if !page[i].paused && CanAdd(l, page[i].task) {
        EntriesDecide(m, l', page[i].task, now);
      }
    }
  }

  // ---------- Runs ----------

  datatype Step =
    | Serve(e: Event)
    | Mend(page: seq<Row>, listed: seq<string>, now: int, stale: nat -> bool)

  function StepOf(s: Service, t: Step): Service {
    match t
    case Serve(e) => EventStep(s, e)
    case Mend(page, listed, now, stale) => Repaired(s, page, listed, now, stale)
  }

  function RunSteps(s: Service, ts: seq<Step>): Service {
    if ts == [] then s else StepOf(RunSteps(s, ts[..|ts| - 1]), ts[|ts| - 1])
  }

  /** A repair reads a page of the rows and lists the wheels, in the state it finds. */
  ghost predicate Possible(s: Service, t: Step) {
    match t
    case Serve(e) => PeriodicEvent(e)
    case Mend(page, listed, _, _) => IsPage(s.db, page) && IsListing(s.levels, listed)
  }

  /** A repair of an agreeing state is safe exactly if its page holds every enabled unpaused row. */
  ghost predicate SafeStep(s: Service, t: Step) {
    match t
    case Serve(e) => SafeEvent(s, e)
    case Mend(page, _, _, _) => forall id :: id in EnabledIds(s.db) && !s.db[id].paused ==> id in Ids(page)
  }

  lemma NoEmptyInWheels(s: Service)
    requires Consistent(s)
    ensures NoEmptyIds(s.levels)
  {
    assert Agrees(s, "");
    hide EnabledIds;
    forall x: Level ensures !s.levels.Has(x, "") {
      assert s.levels.Has(x, "") ==> s.levels.InWheel("");
    }
  }

  lemma StepKeepsConsistentIff(s: Service, t: Step)
    requires Consistent(s) && AllRepeat(s) && Possible(s, t)
    ensures Consistent(StepOf(s, t)) <==> SafeStep(s, t)
  {
    match t
    case Serve(e) => EventKeepsConsistentIff(s, e);
    case Mend(page, listed, now, stale) =>
      NoEmptyInWheels(s);
      RepairIsConsistentIff(s, page, listed, now, stale);
      hide IsPage, IsListing, CanAdd, Repaired;
      forall id ensures Mendable(s, page, id) <==> (id in EnabledIds(s.db) && !s.db[id].paused ==> id in Ids(page)) {
        assert Agrees(s, id);
      }
  }

  // ---------- Repairs enter periodic tasks only ----------

  ghost predicate LevelsRepeat(l: Levels) {
    forall x: Level, id :: l.Has(x, id) ==> Repeating(l.At(x).view[id].task.mode)
  }

  lemma AddKeepsLevelsRepeat(l: Levels, t: Task, now: int, stale: bool)
    requires LevelsRepeat(l) && Repeating(t.mode)
    ensures LevelsRepeat(AddStep(l, Some(t), now, stale))
  {
    var l' := AddStep(l, Some(t), now, stale);
    forall x: Level, id | l'.Has(x, id) ensures Repeating(l'.At(x).view[id].task.mode) {
      TryAddTasks(l, t, now, stale, x, id);
      hide AddStep;
    }
  }

  lemma RemoveKeepsLevelsRepeat(l: Levels, y: string)
    requires LevelsRepeat(l)
    ensures LevelsRepeat(RemoveStep(l, y))
  {
    var l' := RemoveStep(l, y);
    forall x: Level, id | l'.Has(x, id) ensures Repeating(l'.At(x).view[id].task.mode) {
      StepsKeepTasks(l, y, 0, x, id);
      hide RemoveStep;
    }
  }

  lemma {:induction false} AddMissingKeepsRepeat(l: Levels, rows: seq<Row>, seen: set<string>, now: int, stale: nat -> bool)
    requires LevelsRepeat(l) && forall i :: 0 <= i < |rows| ==> Repeating(rows[i].task.mode)
    ensures LevelsRepeat(AddMissing(l, rows, seen, now, stale))
  {
    if rows != [] {
      hide LevelsRepeat, AddStep;
      var n := |rows| - 1;
      AddMissingKeepsRepeat(l, rows[..n], seen, now, stale);
      AddKeepsLevelsRepeat(AddMissing(l, rows[..n], seen, now, stale), rows[n].task, now, stale(n));
    }
  }

  lemma {:induction false} RemoveOrphansKeepsRepeat(l: Levels, listed: seq<string>, keep: set<string>)
    requires LevelsRepeat(l)
    ensures LevelsRepeat(RemoveOrphans(l, listed, keep))
  {
    if listed != [] {
      hide LevelsRepeat, RemoveStep;
      var n := |listed| - 1;
      RemoveOrphansKeepsRepeat(l, listed[..n], keep);
      RemoveKeepsLevelsRepeat(RemoveOrphans(l, listed[..n], keep), listed[n]);
    }
  }

  lemma StepKeepsRepeat(s: Service, t: Step)
    requires RowsOk(s.db) && AllRepeat(s) && Possible(s, t)
    ensures RowsOk(StepOf(s, t).db) && AllRepeat(StepOf(s, t))
  {
    match t
    case Serve(e) => EventKeepsRepeat(s, e);
    case Mend(page, listed, now, stale) =>
      assert LevelsRepeat(s.levels);
      forall i | 0 <= i < |page| ensures Repeating(page[i].task.mode) {
        assert s.db[page[i].task.id] == page[i];
      }
      hide LevelsRepeat, AddMissing, RemoveOrphans;
      AddMissingKeepsRepeat(s.levels, page, Elements(listed), now, stale);
      RemoveOrphansKeepsRepeat(AddMissing(s.levels, page, Elements(listed), now, stale), listed, Ids(page));
      LevelsDecideRepeat(StepOf(s, t), s);
  }

  lemma LevelsDecideRepeat(s': Service, s: Service)
    requires s'.db == s.db && AllRepeat(s) && LevelsRepeat(s'.levels)
    ensures AllRepeat(s')
  {
  }

  ghost predicate AgreesAllAlong(s: Service, ts: seq<Step>) {
    forall k :: 0 <= k <= |ts| ==> Consistent(RunSteps(s, ts[..k]))
  }

  ghost predicate SafeAllAlong(s: Service, ts: seq<Step>) {
    forall k :: 0 <= k < |ts| ==> SafeStep(RunSteps(s, ts[..k]), ts[k])
  }

  ghost predicate PossibleAllAlong(s: Service, ts: seq<Step>) {
    forall k :: 0 <= k < |ts| ==> Possible(RunSteps(s, ts[..k]), ts[k])
  }

  lemma AllAlongStep(s: Service, ts: seq<Step>)
    requires ts != []
    ensures var p, t := ts[..|ts| - 1], ts[|ts| - 1];
            && (AgreesAllAlong(s, ts) <==> AgreesAllAlong(s, p) && Consistent(RunSteps(s, ts)))
            && (SafeAllAlong(s, ts) <==> SafeAllAlong(s, p) && SafeStep(RunSteps(s, p), t))
            && (PossibleAllAlong(s, ts) <==> PossibleAllAlong(s, p) && Possible(RunSteps(s, p), t))
            && (AgreesAllAlong(s, p) ==> Consistent(RunSteps(s, p)))
  {
    hide Consistent, SafeStep, Possible, RunSteps;
    var p := ts[..|ts| - 1];
    assert forall k :: 0 <= k <= |p| ==> p[..k] == ts[..k];
    assert ts[..|ts|] == ts && p[..|p|] == p;
  }

  lemma {:induction false} StepsKeepRepeat(s: Service, ts: seq<Step>)
    requires RowsOk(s.db) && AllRepeat(s) && PossibleAllAlong(s, ts)
    ensures RowsOk(RunSteps(s, ts).db) && AllRepeat(RunSteps(s, ts))
  {
    if ts != [] {
      hide AllRepeat, Possible, StepOf, RowsOk, PossibleAllAlong;
      AllAlongStep(s, ts);
      StepsKeepRepeat(s, ts[..|ts| - 1]);
      StepKeepsRepeat(RunSteps(s, ts[..|ts| - 1]), ts[|ts| - 1]);
    }
  }

  /** Over any run of requests, ticks and repairs, whatever calls fail: rows and wheels agree all the way
      exactly when every request is safe where it happens and every repair sees all enabled unpaused rows. */
  lemma {:induction false} RunsWithRepairsIff(s: Service, ts: seq<Step>)
    requires Consistent(s) && AllRepeat(s) && PossibleAllAlong(s, ts)
    ensures AgreesAllAlong(s, ts) <==> SafeAllAlong(s, ts)
  {
    if ts == [] {
      assert ts[..0] == ts;
    } else {
      hide Consistent, AllRepeat, Possible, SafeStep, StepOf, AgreesAllAlong, SafeAllAlong, PossibleAllAlong;
      var p := ts[..|ts| - 1];
      AllAlongStep(s, ts);
      RunsWithRepairsIff(s, p);
      RowsOfConsistent(s);
      StepsKeepRepeat(s, p);
      if AgreesAllAlong(s, p) {
        StepKeepsConsistentIff(RunSteps(s, p), ts[|ts| - 1]);
      }
    }
  }

  lemma RowsOfConsistent(s: Service)
    requires Consistent(s)
    ensures RowsOk(s.db)
  {
  }
}
