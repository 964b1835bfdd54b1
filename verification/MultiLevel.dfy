/** The three-level wheel. Each level is held as the abstract state of its timing wheel; the methods
    of `TimeWheels.TimeWheel` have exactly the effects and results of the three `Wheel` methods. */
module MultiLevels {
  import opened TaskModel
  import W = WheelSpec
  import opened LevelSpec

  class MultiLevelTimeWheel {
    var levels: Levels
    var started: bool

    constructor ()
      ensures !started
      ensures var w := W.WheelState(map[], 0, false); levels == Levels(w, w, w)
    {
      var w := W.WheelState(map[], 0, false);
      levels, started := Levels(w, w, w), false;
    }

    static function Failed<T>(r: Result<T>): Option<Error> {
      if r.Ok? then None else Some(r.error)
    }

    /** Starts the three wheels; their intervals are whole milliseconds, so no start panics. */
    method Start(now: int)
      modifies this
      ensures started
      ensures if old(started) then levels == old(levels)
              else forall x: Level :: levels.At(x) == W.Step(old(levels).At(x), W.Start(now), ConfigOf(x))
      ensures !old(started) ==> levels.Running()
    {
      if started {
        return;
      }
      levels := levels.With(High, W.StartStep(levels.high, now, HIGH_CONFIG));
      levels := levels.With(Normal, W.StartStep(levels.normal, now, NORMAL_CONFIG));
      levels := levels.With(Low, W.StartStep(levels.low, now, LOW_CONFIG));
      started := true;
    }

    method Stop()
      modifies this
      ensures !started
      ensures if !old(started) then levels == old(levels)
              else forall x: Level :: levels.At(x) == old(levels).At(x).(running := false)
    {
      if !started {
        return;
      }
      levels := levels.With(High, levels.high.(running := false));
      levels := levels.With(Normal, levels.normal.(running := false));
      levels := levels.With(Low, levels.low.(running := false));
      started := false;
    }

    // ---------- The wheels ----------

    method WheelRemove(x: Level, id: string) returns (err: Option<Error>)
      modifies this`levels
      ensures err == Failed(W.LookupResult(old(levels).At(x), id))
      ensures levels == old(levels).With(x, W.Step(old(levels).At(x), W.Remove(id), ConfigOf(x)))
    {
      err := Failed(W.LookupResult(levels.At(x), id));
      levels := levels.With(x, W.RemoveStep(levels.At(x), id));
    }

    method WheelPause(x: Level, id: string) returns (err: Option<Error>)
      modifies this`levels
      ensures err == Failed(W.LookupResult(old(levels).At(x), id))
      ensures levels == old(levels).With(x, W.Step(old(levels).At(x), W.Pause(id), ConfigOf(x)))
    {
      err := Failed(W.LookupResult(levels.At(x), id));
      levels := levels.With(x, W.PauseStep(levels.At(x), id));
    }

    method WheelResume(x: Level, id: string, now: int) returns (err: Option<Error>)
      modifies this`levels
      ensures err == Failed(W.LookupResult(old(levels).At(x), id))
      ensures levels == old(levels).With(x, W.Step(old(levels).At(x), W.Resume(id, now), ConfigOf(x)))
    {
      err := Failed(W.LookupResult(levels.At(x), id));
      levels := levels.With(x, W.ResumeStep(levels.At(x), id, now));
    }

    method WheelAdd(x: Level, task: Option<Task>, now: int, stale: bool) returns (err: Option<Error>)
      modifies this`levels
      ensures err == Failed(W.AddResult(old(levels).At(x), task))
      ensures levels == old(levels).With(x, W.Step(old(levels).At(x), W.Add(task, now, stale), ConfigOf(x)))
    {
      err := Failed(W.AddResult(levels.At(x), task));
      levels := levels.With(x, W.AddStep(levels.At(x), task, now, stale, ConfigOf(x)));
    }

    // ---------- Operations ----------

    method AddTask(task: Option<Task>, now: int, stale: bool) returns (err: Option<Error>)
      modifies this`levels
      ensures err == Failed(AddResult(old(levels), task))
      ensures levels == AddStep(old(levels), task, now, stale)
    {
      if task.None? || task.value.id == "" || !task.value.hasRun {
        return Some(InvalidParam);
      }
      if task.value.interval <= 0 {
        return Some(IntervalInvalid);
      }
      err := Route(task.value, now, stale);
    }

    /** addTask: the level comes from the clamped priority. */
    method Route(t: Task, now: int, stale: bool) returns (err: Option<Error>)
      modifies this`levels
      ensures err == Failed(Enter(old(levels), t))
      ensures levels == if err.Some? then old(levels)
                        else old(levels).With(LevelOf(t.priority), W.AddStep(old(levels).At(LevelOf(t.priority)), Some(t), now, stale, ConfigOf(LevelOf(t.priority))))
    {
      var x := LevelOf(t.priority);
      if !levels.At(x).running {
        return Some(WheelNotRunning);
      }
      err := WheelAdd(x, Some(t), now, stale);
    }

    /** Tries the levels in turn: the first one that has the task removes it. */
    method RemoveTask(id: string) returns (err: Option<Error>)
      modifies this`levels
      ensures err == Failed(LookupIn(old(levels), id))
      ensures levels == RemoveStep(old(levels), id)
    {
      err := WheelRemove(High, id);
      if err.None? {
        return;
      }
      err := WheelRemove(Normal, id);
      if err.None? {
        return;
      }
      err := WheelRemove(Low, id);
    }

    method PauseTask(id: string) returns (err: Option<Error>)
      modifies this`levels
      ensures err == Failed(LookupIn(old(levels), id))
      ensures levels == PauseStep(old(levels), id)
    {
      err := WheelPause(High, id);
      if err.None? {
        return;
      }
      err := WheelPause(Normal, id);
      if err.None? {
        return;
      }
      err := WheelPause(Low, id);
    }

    method ResumeTask(id: string, now: int) returns (err: Option<Error>)
      modifies this`levels
      ensures err == Failed(LookupIn(old(levels), id))
      ensures levels == ResumeStep(old(levels), id, now)
    {
      err := WheelResume(High, id, now);
      if err.None? {
        return;
      }
      err := WheelResume(Normal, id, now);
      if err.None? {
        return;
      }
      err := WheelResume(Low, id, now);
    }

    /** Remove, then add: a failed add leaves the task in no wheel. */
    method UpdateTask(t: Task, now: int, stale: bool) returns (err: Option<Error>)
      modifies this`levels
      ensures levels == UpdateStep(old(levels), t, now, stale)
      ensures err == if t.id == "" then Some(InvalidParam) else Failed(Enter(RemoveStep(old(levels), t.id), t))
    {
      err := RemoveTask(t.id);
      if err.Some? && err != Some(TaskNotFound) {
        return;
      }
      err := Route(t, now, stale);
    }

    /** GetAllTasks: the ids of every entry, level by level; the order inside a level is arbitrary. */
    method GetAllTasks() returns (ids: seq<string>)
      ensures forall id :: multiset(ids)[id] ==
                (if levels.Has(High, id) then 1 else 0) + (if levels.Has(Normal, id) then 1 else 0) +
                (if levels.Has(Low, id) then 1 else 0)
    {
      var h := KeysOf(levels.high.view);
      var n := KeysOf(levels.normal.view);
      var l := KeysOf(levels.low.view);
      ids := h + n + l;
    }

    static method KeysOf(view: W.View) returns (ids: seq<string>)
      ensures forall id :: multiset(ids)[id] == if id in view then 1 else 0
    {
      ids := [];
      var rest := view.Keys;
      while rest != {}
        invariant rest <= view.Keys
        invariant forall id :: multiset(ids)[id] == if id in view.Keys - rest then 1 else 0
        decreases |rest|
      {
        var id :| id in rest;
        rest := rest - {id};
        ids := ids + [id];
      }
    }
  }
}
