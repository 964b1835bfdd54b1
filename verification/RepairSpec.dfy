/** The reconciliation pass of the task service: what one repair does to rows and wheels that are in
    any state at all. */
module RepairSpec {
  import opened TaskModel
  import W = WheelSpec
  import opened LevelSpec
  import opened ServiceSpec

  const PAGE_SIZE := 10000

  /** First loop: adds the unpaused rows whose id was in no wheel. A failed add is only logged. */
  function AddMissing(l: Levels, rows: seq<Row>, seen: set<string>, now: int, stale: nat -> bool): Levels {
    if rows == [] then l
    else
      var n := |rows| - 1;
      var m := AddMissing(l, rows[..n], seen, now, stale);
      if !rows[n].paused && rows[n].task.id !in seen then AddStep(m, Some(rows[n].task), now, stale(n)) else m
  }

  /** Second loop: one removal for every wheel entry whose id is not an enabled row of the page. */
  function RemoveOrphans(l: Levels, listed: seq<string>, keep: set<string>): Levels {
    if listed == [] then l
    else
      var n := |listed| - 1;
      var m := RemoveOrphans(l, listed[..n], keep);
      if listed[n] !in keep then RemoveStep(m, listed[n]) else m
  }

  function Ids(rows: seq<Row>): set<string> {
    set i | 0 <= i < |rows| :: rows[i].task.id
  }

  function Elements<T>(s: seq<T>): set<T> {
    set x | x in s
  }

  function Repair(l: Levels, page: seq<Row>, listed: seq<string>, now: int, stale: nat -> bool): Levels {
    RemoveOrphans(AddMissing(l, page, Elements(listed), now, stale), listed, Ids(page))
  }

  function EnabledIds(db: Db): set<string> {
    set id | id in db && db[id].enabled
  }

  /** `page` is what the repository lists: enabled rows without repetition, at most a page of them. */
  ghost predicate IsPage(db: Db, page: seq<Row>) {
    && (forall i {:trigger page[i]} :: 0 <= i < |page| ==>
          page[i].task.id in db && db[page[i].task.id] == page[i] && page[i].enabled)
    && (forall i, j :: 0 <= i < j < |page| ==> page[i].task.id != page[j].task.id)
    && |page| == if |EnabledIds(db)| <= PAGE_SIZE then |EnabledIds(db)| else PAGE_SIZE
  }

  /** In how many levels an id is. */
  function Count(l: Levels, id: string): nat {
    (if l.Has(High, id) then 1 else 0) + (if l.Has(Normal, id) then 1 else 0) + (if l.Has(Low, id) then 1 else 0)
  }

  /** `listed` is what GetAllTasks returns: every entry of every level, in any order. */
  ghost predicate IsListing(l: Levels, listed: seq<string>) {
    forall id :: multiset(listed)[id] == Count(l, id)
  }

  ghost predicate NoEmptyIds(l: Levels) {
    forall x: Level :: !l.Has(x, "")
  }

  predicate SameRunning(l: Levels, l': Levels) {
    forall x: Level :: l.At(x).running == l'.At(x).running
  }

  // ---------- The first loop ----------

  lemma AddKeepsRunning(l: Levels, row: Row, now: int, stale: bool)
    ensures SameRunning(l, AddStep(l, Some(row.task), now, stale))
  {
  }

  lemma AddFramesOthers(l: Levels, task: Option<Task>, now: int, stale: bool, id: string)
    requires task.None? || task.value.id != id
    ensures SameLevels(l, AddStep(l, task, now, stale), id)
    ensures SameRunning(l, AddStep(l, task, now, stale))
  {
  }

  /** An id that was in a wheel, or is no unpaused row of the page, is not touched; any other one is
      added, once, exactly when its row can be added. */
  lemma {:induction false} AddMissingPointwise(l: Levels, rows: seq<Row>, seen: set<string>, now: int, stale: nat -> bool, id: string)
    requires forall i, j :: 0 <= i < j < |rows| ==> rows[i].task.id != rows[j].task.id
    requires id in seen <==> l.InWheel(id)
    ensures var l' := AddMissing(l, rows, seen, now, stale);
            && SameRunning(l, l')
            && (id in seen || (forall i :: 0 <= i < |rows| && rows[i].task.id == id ==> rows[i].paused) ==> SameLevels(l, l', id))
            && (forall i :: 0 <= i < |rows| && rows[i].task.id == id && id !in seen && !rows[i].paused ==>
                  (if CanAdd(l, rows[i].task) then l'.InWheel(id) && l'.AtMostOnce(id) else SameLevels(l, l', id)))
  {
    if rows != [] {
      var n := |rows| - 1;
      AddMissingPointwise(l, rows[..n], seen, now, stale, id);
      var m, row := AddMissing(l, rows[..n], seen, now, stale), rows[n];
      var l' := AddMissing(l, rows, seen, now, stale);
      if row.task.id != id {
        AddFramesOthers(m, Some(row.task), now, stale(n), id);
        assert SameLevels(m, l', id) && SameRunning(m, l');
        SameLevelsAgree(m, l', id);
        hide AddStep, AddResult, CanAdd;
      } else if !row.paused && id !in seen {
        assert SameLevels(l, m, id);
        SameLevelsAgree(l, m, id);
        AddSucceedsIff(m, row.task);
        AddKeepsRunning(m, row, now, stale(n));
        TryAddEnters(m, row.task, now, stale(n), id);
        assert CanAdd(l, row.task) == CanAdd(m, row.task);
        hide AddStep, AddResult, CanAdd;
      }
    }
  }

  // ---------- The second loop ----------

  lemma RemoveCounts(l: Levels, id: string, other: string)
    requires id != ""
    ensures other != id ==> SameLevels(l, RemoveStep(l, id), other)
    ensures Count(RemoveStep(l, id), id) == if Count(l, id) > 0 then Count(l, id) - 1 else 0
    ensures SameRunning(l, RemoveStep(l, id))
  {
  }

  lemma SameLevelsCount(l: Levels, l': Levels, id: string)
    requires SameLevels(l, l', id)
    ensures Count(l, id) == Count(l', id)
  {
    assert l.Has(High, id) == l'.Has(High, id);
    assert l.Has(Normal, id) == l'.Has(Normal, id);
    assert l.Has(Low, id) == l'.Has(Low, id);
  }

  /** A kept id is not touched; an orphan leaves one level per time it is listed. */
  lemma {:induction false} RemoveOrphansPointwise(l: Levels, listed: seq<string>, keep: set<string>, id: string)
    requires "" !in listed
    ensures var l' := RemoveOrphans(l, listed, keep);
            && SameRunning(l, l')
            && (id in keep ==> SameLevels(l, l', id))
            && (id !in keep ==>
                  Count(l', id) == (if Count(l, id) > multiset(listed)[id] then Count(l, id) - multiset(listed)[id] else 0))
  {
    if listed != [] {
      var n := |listed| - 1;
      RemoveOrphansPointwise(l, listed[..n], keep, id);
      assert listed == listed[..n] + [listed[n]];
      var m := RemoveOrphans(l, listed[..n], keep);
      assert listed[n] != "";
      RemoveCounts(m, listed[n], id);
      if listed[n] != id {
        SameLevelsCount(m, RemoveStep(m, listed[n]), id);
      }
      hide RemoveStep, Count;
    }
  }

  // ---------- Repair ----------

  lemma ListedIds(l: Levels, listed: seq<string>, id: string)
    requires IsListing(l, listed)
    ensures id in Elements(listed) <==> l.InWheel(id)
    ensures NoEmptyIds(l) ==> "" !in listed
  {
    assert id in listed <==> multiset(listed)[id] > 0;
    assert "" in listed <==> multiset(listed)[""] > 0;
    assert !NoEmptyIds(l) || Count(l, "") == 0 by {
      if NoEmptyIds(l) {
        assert !l.Has(High, "") && !l.Has(Normal, "") && !l.Has(Low, "");
      }
    }
  }

  /** What one repair does to each id, from any state of the wheels. An id off the page is in no
      wheel afterwards; an id on it is in a wheel exactly if it was in one or could be added. */
  lemma RepairPointwise(l: Levels, db: Db, page: seq<Row>, listed: seq<string>, now: int, stale: nat -> bool, id: string)
    requires IsPage(db, page) && IsListing(l, listed) && NoEmptyIds(l)
    ensures var l' := Repair(l, page, listed, now, stale);
            && SameRunning(l, l')
            && (id !in Ids(page) ==> !l'.InWheel(id))
            && (id in Ids(page) ==>
                  && (l'.InWheel(id) <==> l.InWheel(id) || (!db[id].paused && CanAdd(l, db[id].task)))
                  && (l.InWheel(id) || !l'.InWheel(id) ==> SameLevels(l, l', id))
                  && (!l.InWheel(id) ==> l'.AtMostOnce(id)))
  {
    var seen, keep := Elements(listed), Ids(page);
    var m := AddMissing(l, page, seen, now, stale);
    var l' := Repair(l, page, listed, now, stale);
    ListedIds(l, listed, id);
    AddMissingPointwise(l, page, seen, now, stale, id);
    RemoveOrphansPointwise(m, listed, keep, id);
    if id in keep {
      var i :| 0 <= i < |page| && page[i].task.id == id;
      assert db[id] == page[i];
      SameLevelsAgree(m, l', id);
      if SameLevels(l, m, id) {
        SameLevelsAgree(l, m, id);
      }
    } else {
      assert SameLevels(l, m, id);
      SameLevelsCount(l, m, id);
    }
    hide Repair, AddMissing, RemoveOrphans, CanAdd;
  }

  /** With at most a page of enabled rows the page holds all of them. */
  lemma PageIsComplete(db: Db, page: seq<Row>)
    requires IsPage(db, page)
    ensures Ids(page) <= EnabledIds(db) && |Ids(page)| == |page|
    ensures |EnabledIds(db)| <= 10000 ==> Ids(page) == EnabledIds(db)
  {
    DistinctIds(page);
    var rest := EnabledIds(db) - Ids(page);
    assert EnabledIds(db) == Ids(page) + rest;
    if |EnabledIds(db)| <= PAGE_SIZE {
      assert |rest| == 0;
    }
  }

  lemma {:induction false} DistinctIds(rows: seq<Row>)
    requires forall i, j :: 0 <= i < j < |rows| ==> rows[i].task.id != rows[j].task.id
    ensures |Ids(rows)| == |rows|
  {
    if rows != [] {
      var n := |rows| - 1;
      DistinctIds(rows[..n]);
      assert Ids(rows) == Ids(rows[..n]) + {rows[n].task.id};
    }
  }

  /** Repair converges from any state: with at most a page of enabled rows that can all be added,
      every enabled unpaused row is in a wheel and every wheel id is an enabled row. */
  lemma RepairConverges(s: Service, page: seq<Row>, listed: seq<string>, now: int, stale: nat -> bool)
    requires RowsOk(s.db) && NoEmptyIds(s.levels) && IsPage(s.db, page) && IsListing(s.levels, listed)
    requires |EnabledIds(s.db)| <= 10000
    requires forall id :: id in EnabledIds(s.db) && !s.db[id].paused ==> CanAdd(s.levels, s.db[id].task)
    ensures var l' := Repair(s.levels, page, listed, now, stale);
            && (forall id :: id in s.db && s.db[id].enabled && !s.db[id].paused ==> l'.InWheel(id))
            && (forall id :: l'.InWheel(id) ==> id in s.db && s.db[id].enabled)
  {
    var l' := Repair(s.levels, page, listed, now, stale);
    PageIsComplete(s.db, page);
    hide Repair, CanAdd, IsPage, IsListing;
    forall id ensures id in EnabledIds(s.db) && !s.db[id].paused ==> l'.InWheel(id)
              ensures l'.InWheel(id) ==> id in EnabledIds(s.db) {
      RepairPointwise(s.levels, s.db, page, listed, now, stale, id);
    }
  }

  /** In general the rows are served exactly if each enabled unpaused one is on the page and was in a
      wheel or can be added. Beyond a page of rows a repair takes healthy tasks out of their wheels. */
  lemma RepairServesRowsIff(s: Service, page: seq<Row>, listed: seq<string>, now: int, stale: nat -> bool)
    requires RowsOk(s.db) && NoEmptyIds(s.levels) && IsPage(s.db, page) && IsListing(s.levels, listed)
    ensures var l' := Repair(s.levels, page, listed, now, stale);
            (forall id :: id in s.db && s.db[id].enabled && !s.db[id].paused ==> l'.InWheel(id))
            <==>
            (forall id :: id in s.db && s.db[id].enabled && !s.db[id].paused ==>
               id in Ids(page) && (s.levels.InWheel(id) || CanAdd(s.levels, s.db[id].task)))
  {
    hide Repair, CanAdd, IsPage, IsListing;
    var l' := Repair(s.levels, page, listed, now, stale);
    forall id | id in s.db && s.db[id].enabled && !s.db[id].paused
      ensures l'.InWheel(id) <==> id in Ids(page) && (s.levels.InWheel(id) || CanAdd(s.levels, s.db[id].task)) {
      RepairPointwise(s.levels, s.db, page, listed, now, stale, id);
    }
  }

  /** With more enabled rows than a page there always is one whose task is in no wheel after a repair,
      wherever it was before. */
  lemma RowsBeyondAPageAreLost(s: Service, page: seq<Row>, listed: seq<string>, now: int, stale: nat -> bool) returns (id: string)
    requires NoEmptyIds(s.levels) && IsPage(s.db, page) && IsListing(s.levels, listed)
    requires |EnabledIds(s.db)| > 10000
    ensures id in s.db && s.db[id].enabled && !Repair(s.levels, page, listed, now, stale).InWheel(id)
  {
    PageIsComplete(s.db, page);
    assert EnabledIds(s.db) != Ids(page);
    assert exists i :: i in EnabledIds(s.db) && i !in Ids(page);
    id :| id in EnabledIds(s.db) && id !in Ids(page);
    RepairPointwise(s.levels, s.db, page, listed, now, stale, id);
  }

  lemma {:induction false} NothingToAdd(l: Levels, rows: seq<Row>, seen: set<string>, now: int, stale: nat -> bool)
    requires forall i :: 0 <= i < |rows| && !rows[i].paused && rows[i].task.id !in seen ==> AddResult(l, Some(rows[i].task)).Err?
    ensures AddMissing(l, rows, seen, now, stale) == l
  {
    if rows != [] {
      NothingToAdd(l, rows[..|rows| - 1], seen, now, stale);
    }
  }

  lemma {:induction false} NothingToRemove(l: Levels, listed: seq<string>, keep: set<string>)
    requires forall i :: 0 <= i < |listed| ==> listed[i] in keep
    ensures RemoveOrphans(l, listed, keep) == l
  {
    if listed != [] {
      NothingToRemove(l, listed[..|listed| - 1], keep);
    }
  }

  /** A second repair on the same rows changes nothing at all. */
  lemma RepairIsIdempotent(s: Service, page: seq<Row>, listed: seq<string>, page2: seq<Row>, listed2: seq<string>,
                           now: int, stale: nat -> bool, now2: int, stale2: nat -> bool)
    requires NoEmptyIds(s.levels) && IsPage(s.db, page) && IsListing(s.levels, listed)
    requires IsPage(s.db, page2) && Ids(page2) == Ids(page)
    requires IsListing(Repair(s.levels, page, listed, now, stale), listed2)
    ensures var l1 := Repair(s.levels, page, listed, now, stale);
            Repair(l1, page2, listed2, now2, stale2) == l1
  {
    var l1 := Repair(s.levels, page, listed, now, stale);
    forall i | 0 <= i < |page2| && !page2[i].paused && page2[i].task.id !in Elements(listed2)
      ensures AddResult(l1, Some(page2[i].task)).Err? {
      var id := page2[i].task.id;
      RepairPointwise(s.levels, s.db, page, listed, now, stale, id);
      ListedIds(l1, listed2, id);
      AddSucceedsIff(l1, page2[i].task);
      assert id in Ids(page2);
      assert !CanAdd(s.levels, s.db[id].task);
    }
    forall i | 0 <= i < |listed2| ensures listed2[i] in Ids(page2) {
      RepairPointwise(s.levels, s.db, page, listed, now, stale, listed2[i]);
      ListedIds(l1, listed2, listed2[i]);
    }
    NothingToAdd(l1, page2, Elements(listed2), now2, stale2);
    NothingToRemove(l1, listed2, Ids(page2));
  }
}
