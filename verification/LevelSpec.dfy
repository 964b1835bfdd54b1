/** What the three-level wheel means: one `WheelState` per priority level, and the operations that
    try the levels in turn. */
module LevelSpec {
  import opened TaskModel
  import opened WheelSpec

  datatype Level = High | Normal | Low

  datatype Levels = Levels(high: WheelState, normal: WheelState, low: WheelState) {
    function At(x: Level): WheelState {
      match x
      case High => high
      case Normal => normal
      case Low => low
    }

    function With(x: Level, s: WheelState): (l: Levels)
      ensures l.At(x) == s && forall y :: y != x ==> l.At(y) == At(y)
    {
      match x
      case High => this.(high := s)
      case Normal => this.(normal := s)
      case Low => this.(low := s)
    }

    predicate Has(x: Level, id: string) {
      id in At(x).view
    }

    predicate InWheel(id: string) {
      Has(High, id) || Has(Normal, id) || Has(Low, id)
    }

    predicate AtMostOnce(id: string) {
      forall x, y :: Has(x, id) && Has(y, id) ==> x == y
    }

    predicate Running() {
      forall x :: At(x).running
    }
  }

  const HIGH_CONFIG := Config(10 * NS_PER_MS, 60)
  const NORMAL_CONFIG := Config(100 * NS_PER_MS, 60)
  const LOW_CONFIG := Config(1000 * NS_PER_MS, 60)

  function ConfigOf(x: Level): (cfg: Config)
    ensures cfg.Ok() && Millis(cfg.interval) > 0
  {
    match x
    case High => HIGH_CONFIG
    case Normal => NORMAL_CONFIG
    case Low => LOW_CONFIG
  }

  /** Priorities are clamped into the valid range. */
  function LevelOf(priority: int): Level {
    if priority <= 0 then High else if priority == 1 then Normal else Low
  }

  function AddResult(l: Levels, task: Option<Task>): Result<Task> {
    match task
    case None => Err(InvalidParam)
    case Some(t) =>
      if t.id == "" || !t.hasRun then Err(InvalidParam)
      else if t.interval <= 0 then Err(IntervalInvalid)
      else Enter(l, t)
  }

  /** The unchecked inner addTask. */
  function Enter(l: Levels, t: Task): Result<Task> {
    var s := l.At(LevelOf(t.priority));
    if !s.running then Err(WheelNotRunning) else WheelSpec.AddResult(s, Some(t))
  }

  function AddStep(l: Levels, task: Option<Task>, now: int, stale: bool): Levels {
    match AddResult(l, task)
    case Err(_) => l
    case Ok(_) =>
      var x := LevelOf(task.value.priority);
      l.With(x, WheelSpec.AddStep(l.At(x), task, now, stale, ConfigOf(x)))
  }

  /** The first level whose lookup of `id` succeeds, or the last level. */
  function Target(l: Levels, id: string): Level {
    if LookupResult(l.high, id).Ok? then High
    else if LookupResult(l.normal, id).Ok? then Normal
    else Low
  }

  function LookupIn(l: Levels, id: string): Result<Entry> {
    LookupResult(l.At(Target(l, id)), id)
  }

  function RemoveStep(l: Levels, id: string): Levels {
    var x := Target(l, id);
    l.With(x, WheelSpec.RemoveStep(l.At(x), id))
  }

  function PauseStep(l: Levels, id: string): Levels {
    var x := Target(l, id);
    l.With(x, WheelSpec.PauseStep(l.At(x), id))
  }

  function ResumeStep(l: Levels, id: string, now: int): Levels {
    var x := Target(l, id);
    l.With(x, WheelSpec.ResumeStep(l.At(x), id, now))
  }

  /** UpdateTask of the three-level wheel: remove, then add, with no way back. */
  function UpdateStep(l: Levels, t: Task, now: int, stale: bool): Levels {
    if t.id == "" then l
    else
      var l' := RemoveStep(l, t.id);
      match Enter(l', t)
      case Err(_) => l'
      case Ok(_) =>
        var x := LevelOf(t.priority);
        l'.With(x, WheelSpec.AddStep(l'.At(x), Some(t), now, stale, ConfigOf(x)))
  }

  // ---------- Facts ----------

  lemma LookupFinds(l: Levels, id: string)
    ensures LookupIn(l, id).Ok? <==> id != "" && l.InWheel(id)
    ensures LookupIn(l, id).Ok? ==> l.Has(Target(l, id), id)
  {
  }

  /** AddTask alone does not look at the other levels: it can put an id into a second one. */
  lemma AddCanDuplicate(t: Task, now: int)
    requires IsNormal(t) && t.priority == 0
    ensures var t' := t.(priority := 2);
            var w := WheelState(map[], 0, true);
            var l := AddStep(AddStep(Levels(w, w, w), Some(t), now, false), Some(t'), now, false);
            l.Has(High, t.id) && l.Has(Low, t.id) && !l.AtMostOnce(t.id)
  {
    NormalizeYieldsNormal(Some(t));
    var t' := t.(priority := 2);
    var w := WheelState(map[], 0, true);
    var l1 := AddStep(Levels(w, w, w), Some(t), now, false);
    var l := AddStep(l1, Some(t'), now, false);
    assert l1.Has(High, t.id) && l.Has(High, t.id) && l.Has(Low, t.id);
  }

  /** An add that succeeds keeps the id in one level exactly when it was in none before. */
  lemma AddKeepsSingleLevel(l: Levels, task: Option<Task>, now: int, stale: bool)
    requires AddResult(l, task).Ok?
    ensures var l' := AddStep(l, task, now, stale);
            var id := task.value.id;
            && l'.InWheel(id)
            && (l'.AtMostOnce(id) <==> !l.InWheel(id))
            && (forall id' :: id' != id ==> l'.InWheel(id') == l.InWheel(id') && l'.AtMostOnce(id') == l.AtMostOnce(id'))
            && (forall x, id' :: id' != id ==> l'.Has(x, id') == l.Has(x, id'))
  {
    var l' := AddStep(l, task, now, stale);
    var id, x := task.value.id, LevelOf(task.value.priority);
    NormalizeYieldsNormal(task);
    assert l'.Has(x, id);
    assert forall y, id' :: (y != x || id' != id) ==> l'.Has(y, id') == l.Has(y, id');
    if l.InWheel(id) {
      assert !l.Has(x, id);
      var y :| l.Has(y, id);
      assert l'.Has(y, id);
    }
  }

  /** The task passes both validations and the wheel of its level runs. */
  predicate CanAdd(l: Levels, t: Task) {
    && t.id != "" && t.hasRun && t.interval > 0
    && Normalize(Some(t)).Ok?
    && l.At(LevelOf(t.priority)).running
  }

  lemma AddSucceedsIff(l: Levels, t: Task)
    requires !l.InWheel(t.id)
    ensures AddResult(l, Some(t)).Ok? <==> CanAdd(l, t)
  {
    assert !l.Has(LevelOf(t.priority), t.id);
    if Normalize(Some(t)).Ok? {
      NormalizeYieldsNormal(Some(t));
    }
  }

  /** The three-level UpdateTask loses a task exactly when the new definition is not valid or the
      wheel of its new level does not run. */
  lemma UpdateLosesTask(l: Levels, t: Task, now: int, stale: bool)
    requires t.id != "" && l.InWheel(t.id) && l.AtMostOnce(t.id)
    ensures !UpdateStep(l, t, now, stale).InWheel(t.id) <==>
              !(l.At(LevelOf(t.priority)).running && Normalize(Some(t)).Ok?)
  {
    LookupFinds(l, t.id);
    var l' := RemoveStep(l, t.id);
    forall y ensures !l'.Has(y, t.id) && l'.At(y).running == l.At(y).running {
      if y != Target(l, t.id) {
        assert l'.Has(y, t.id) == l.Has(y, t.id);
        assert l.Has(Target(l, t.id), t.id);
      }
    }
    if Normalize(Some(t)).Ok? {
      NormalizeYieldsNormal(Some(t));
    }
    if Enter(l', t).Ok? {
      assert UpdateStep(l, t, now, stale).Has(LevelOf(t.priority), t.id);
    }
  }

  /** For instance an edit to interval 0. */
  lemma ZeroIntervalLosesTask(l: Levels, t: Task, now: int, stale: bool)
    requires t.id != "" && l.InWheel(t.id) && l.AtMostOnce(t.id)
    requires t.mode == Repeated
    ensures !UpdateStep(l, t.(interval := 0), now, stale).InWheel(t.id)
  {
    UpdateLosesTask(l, t.(interval := 0), now, stale);
  }
}
