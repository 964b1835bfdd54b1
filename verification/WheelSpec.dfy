/** What a timing wheel means: a map from task ids to entries, a slot counter and a running flag,
    stepped by the wheel's operations. `TimeWheel` refines these steps; the lemmas here and in
    `WheelTiming` speak about every run of them. */
module WheelSpec {
  import opened TaskModel
  import opened Alerts

  /** Tick interval in nanoseconds and number of slots, as `New` accepts them. */
  datatype Config = Config(interval: int, slotNum: int) {
    predicate Ok() {
      interval > 0 && slotNum > 0
    }
  }

  /** Everything a task node holds except its list pointers. */
  datatype Entry = Entry(
    task: Task,
    slotIndex: int,
    addedAt: int,
    runAt: int,
    executed: int,
    alert: AlertTrack,
    lastResult: AlarmResult,
    paused: bool)

  type View = map<string, Entry>

  datatype WheelState = WheelState(view: View, cursor: int, running: bool)

  function Millis(ns: int): int {
    ns / NS_PER_MS
  }

  /** The slot of a task due `delay` after `now`; an interval below 1 ms counts as 1 ms. */
  function SlotFor(now: int, delay: int, cfg: Config): (slot: int)
    requires cfg.Ok()
    ensures 0 <= slot < cfg.slotNum
  {
    var intervalMs := if Millis(cfg.interval) == 0 then 1 else Millis(cfg.interval);
    (Millis(now) + Millis(delay)) / intervalMs % cfg.slotNum
  }

  function NewEntry(task: Task, now: int, cfg: Config, paused: bool): Entry
    requires cfg.Ok()
  {
    Entry(task, SlotFor(now, task.interval, cfg), now, now + task.interval, 0, FRESH_TRACK, NO_RESULT, paused)
  }

  // ---------- Operations ----------

  /** One call on the wheel, or one tick. `now` is the clock reading the call takes; `paused` is the
      flag the node handed out by the free pool carries; `outcomes` says what each callback does. */
  datatype Op =
    | Start(now: int)
    | Stop
    | Add(task: Option<Task>, now: int, paused: bool)
    | Remove(id: string)
    | Update(task: Option<Task>, now: int, paused: bool, restoreNow: int, restorePaused: bool)
    | Pause(id: string)
    | Resume(id: string, now: int)
    | Clear
    | Tick(now: int, outcomes: string -> RunOutcome)

  function AddResult(s: WheelState, task: Option<Task>): Result<Task> {
    match Normalize(task)
    case Err(e) => Err(e)
    case Ok(t) =>
      if !s.running then Err(WheelNotRunning)
      else if t.id in s.view then Err(TaskAlreadyExists)
      else Ok(t)
  }

  function AddStep(s: WheelState, task: Option<Task>, now: int, paused: bool, cfg: Config): WheelState
    requires cfg.Ok()
  {
    match AddResult(s, task)
    case Err(_) => s
    case Ok(t) => s.(view := s.view[t.id := NewEntry(t, now, cfg, paused)])
  }

  /** RemoveTask, PauseTask and ResumeTask share this check. */
  function LookupResult(s: WheelState, id: string): Result<Entry> {
    if id == "" then Err(InvalidParam)
    else if id !in s.view then Err(TaskNotFound)
    else Ok(s.view[id])
  }

  function RemoveStep(s: WheelState, id: string): WheelState {
    if LookupResult(s, id).Ok? then s.(view := s.view - {id}) else s
  }

  function UpdateResult(s: WheelState, task: Option<Task>): Result<Task> {
    match task
    case None => Err(InvalidParam)
    case Some(t) =>
      if t.id == "" || !t.hasRun then Err(InvalidParam)
      else if !s.running then Err(WheelNotRunning)
      else if t.id !in s.view then Err(TaskNotFound)
      else AddResult(RemoveStep(s, t.id), task)
  }

  /** Remove, add the new task, and on failure add a copy of the old one back. */
  function UpdateStep(s: WheelState, task: Option<Task>, now: int, paused: bool,
                      restoreNow: int, restorePaused: bool, cfg: Config): WheelState
    requires cfg.Ok()
  {
    if task.None? || task.value.id == "" || !task.value.hasRun || !s.running || task.value.id !in s.view then s
    else
      var was := s.view[task.value.id].task;
      var s' := RemoveStep(s, task.value.id);
      if AddResult(s', task).Ok? then AddStep(s', task, now, paused, cfg)
      else AddStep(s', Some(was), restoreNow, restorePaused, cfg)
  }

  function PauseStep(s: WheelState, id: string): WheelState {
    if LookupResult(s, id).Ok? then s.(view := s.view[id := s.view[id].(paused := true)]) else s
  }

  /** Resume moves `runAt` and leaves the slot alone. */
  function ResumeStep(s: WheelState, id: string, now: int): WheelState {
    if LookupResult(s, id).Ok? && s.view[id].paused then
      var e := s.view[id];
      s.(view := s.view[id := e.(paused := false, runAt := now + if e.task.interval > 0 then e.task.interval else NS_PER_MS)])
    else s
  }

  /** Start sets the flag first; with an interval below 1 ms it then divides by zero and panics. */
  predicate StartPanics(s: WheelState, cfg: Config) {
    !s.running && Millis(cfg.interval) == 0
  }

  function StartStep(s: WheelState, now: int, cfg: Config): WheelState
    requires cfg.Ok()
  {
    if s.running then s
    else if StartPanics(s, cfg) then s.(running := true)
    else s.(running := true, cursor := Millis(now) / Millis(cfg.interval) % cfg.slotNum)
  }

  // ---------- Execution ----------

  predicate ShouldReschedule(e: Entry) {
    match e.task.mode
    case Once => false
    case FixedTimes => e.executed < e.task.times
    case _ => true
  }

  function Alert(e: Entry, r: AlarmResult, now: int): Handled {
    Handle(e.alert, r.isFiring, e.task.forDuration, e.task.repeatInterval, now)
  }

  /** The entry once its callback returned: counted, its alert state advanced. */
  function Completed(e: Entry, r: AlarmResult, now: int): Entry {
    e.(executed := e.executed + 1, lastResult := r, alert := Alert(e, r, now).track)
  }

  /** What is left of an unpaused entry after one execution. A panic skips everything. */
  function Execute(e: Entry, o: RunOutcome, now: int, cfg: Config): Option<Entry>
    requires cfg.Ok()
  {
    match o
    case Panicked => Some(e)
    case Returned(r) =>
      var c := Completed(e, r, now);
      if ShouldReschedule(c) then
        Some(c.(runAt := now + e.task.interval, slotIndex := SlotFor(now, e.task.interval, cfg)))
      else None
  }

  /** One record of the history manager. */
  datatype HistoryRecord = HistoryRecord(taskId: string, notice: Notice, result: AlarmResult)

  function Records(id: string, notices: seq<Notice>, r: AlarmResult): seq<HistoryRecord> {
    seq(|notices|, i requires 0 <= i < |notices| => HistoryRecord(id, notices[i], r))
  }

  /** The history after the callback of `id` ran. */
  function Logged(history: seq<HistoryRecord>, e: Entry, o: RunOutcome, now: int): seq<HistoryRecord> {
    if e.paused || o.Panicked? then history
    else history + Records(e.task.id, Alert(e, o.result, now).notices, o.result)
  }

  function Counted(e: Entry, o: RunOutcome, now: int): nat {
    if e.paused || o.Panicked? then 0 else Alert(e, o.result, now).counted
  }

  /** Executes one collected task. */
  function RunInView(v: View, id: string, o: RunOutcome, now: int, cfg: Config): View
    requires cfg.Ok()
  {
    if id !in v || v[id].paused then v
    else
      match Execute(v[id], o, now, cfg)
      case Some(e) => v[id := e]
      case None => v - {id}
  }

  /** Executes the collected tasks one after the other. */
  function RunAll(v: View, ids: seq<string>, outcomes: string -> RunOutcome, now: int, cfg: Config): View
    requires cfg.Ok()
  {
    if ids == [] then v
    else
      var n := |ids| - 1;
      RunInView(RunAll(v, ids[..n], outcomes, now, cfg), ids[n], outcomes(ids[n]), now, cfg)
  }

  function LogAll(history: seq<HistoryRecord>, v: View, ids: seq<string>, outcomes: string -> RunOutcome, now: int): seq<HistoryRecord>
    requires forall id :: id in ids ==> id in v
  {
    if ids == [] then history
    else
      var n := |ids| - 1;
      assert ids[n] in ids;
      Logged(LogAll(history, v, ids[..n], outcomes, now), v[ids[n]], outcomes(ids[n]), now)
  }

  predicate Distinct<T(==)>(s: seq<T>) {
    forall i, j :: 0 <= i < j < |s| ==> s[i] != s[j]
  }

  /** Executing some distinct tasks in any order treats each of them on its own. */
  lemma {:induction false} RunAllPointwise(v: View, ids: seq<string>, outcomes: string -> RunOutcome, now: int, cfg: Config, id: string)
    requires cfg.Ok() && Distinct(ids)
    ensures var w := RunAll(v, ids, outcomes, now, cfg);
            if id !in v then id !in w
            else if id !in ids || v[id].paused then id in w && w[id] == v[id]
            else if Execute(v[id], outcomes(id), now, cfg).Some? then id in w && w[id] == Execute(v[id], outcomes(id), now, cfg).value
            else id !in w
  {
    if ids != [] {
      var n := |ids| - 1;
      RunAllPointwise(v, ids[..n], outcomes, now, cfg, id);
      assert ids == ids[..n] + [ids[n]];
      hide Execute;
    }
  }

  predicate Due(e: Entry, slot: int, now: int) {
    e.slotIndex == slot && e.runAt <= now
  }

  /** A due entry runs unless it is paused. */
  predicate Runs(e: Entry, slot: int, now: int) {
    Due(e, slot, now) && !e.paused
  }

  function TickEntry(e: Entry, slot: int, now: int, o: RunOutcome, cfg: Config): Option<Entry>
    requires cfg.Ok()
  {
    if Runs(e, slot, now) then Execute(e, o, now, cfg) else Some(e)
  }

  function CurrentSlot(s: WheelState, cfg: Config): int
    requires cfg.Ok()
  {
    (s.cursor + 1) % cfg.slotNum
  }

  /** One tick moves the cursor and gives every entry its own, independent treatment. */
  function TickStep(s: WheelState, now: int, outcomes: string -> RunOutcome, cfg: Config): WheelState
    requires cfg.Ok()
  {
    var slot := CurrentSlot(s, cfg);
    s.(cursor := s.cursor + 1,
       view := map id | id in s.view && TickEntry(s.view[id], slot, now, outcomes(id), cfg).Some?
                 :: TickEntry(s.view[id], slot, now, outcomes(id), cfg).value)
  }

  /** So any order of the due tasks gives the tick its meaning. */
  lemma AnyOrderIsTick(s: WheelState, ids: seq<string>, now: int, outcomes: string -> RunOutcome, cfg: Config)
    requires cfg.Ok() && Distinct(ids)
    requires forall id :: id in ids <==> id in s.view && Due(s.view[id], CurrentSlot(s, cfg), now)
    ensures RunAll(s.view, ids, outcomes, now, cfg) == TickStep(s, now, outcomes, cfg).view
  {
    var v, w := RunAll(s.view, ids, outcomes, now, cfg), TickStep(s, now, outcomes, cfg).view;
    forall id ensures id in v <==> id in w
              ensures id in v ==> v[id] == w[id]
    {
      RunAllPointwise(s.view, ids, outcomes, now, cfg, id);
      hide Execute;
    }
  }

  function Step(s: WheelState, op: Op, cfg: Config): WheelState
    requires cfg.Ok()
  {
    match op
    case Start(now) => StartStep(s, now, cfg)
    case Stop => s.(running := false)
    case Add(t, now, p) => AddStep(s, t, now, p, cfg)
    case Remove(id) => RemoveStep(s, id)
    case Update(t, now, p, rn, rp) => UpdateStep(s, t, now, p, rn, rp, cfg)
    case Pause(id) => PauseStep(s, id)
    case Resume(id, now) => ResumeStep(s, id, now)
    case Clear => s.(view := map[])
    case Tick(now, outcomes) => TickStep(s, now, outcomes, cfg)
  }

  function Run(s: WheelState, ops: seq<Op>, cfg: Config): WheelState
    requires cfg.Ok()
  {
    if ops == [] then s else Step(Run(s, ops[..|ops| - 1], cfg), ops[|ops| - 1], cfg)
  }

  // ---------- Properties of every run ----------

  /** What holds of every entry a wheel can hold. */
  predicate EntryOk(id: string, e: Entry, cfg: Config) {
    && e.task.id == id != ""
    && IsNormal(e.task)
    && 0 <= e.slotIndex < cfg.slotNum
    && e.executed >= 0
    && (e.task.mode == Once ==> e.executed == 0)
    && (e.task.mode == FixedTimes ==> e.executed < e.task.times)
  }

  predicate StateOk(s: WheelState, cfg: Config) {
    forall id :: id in s.view ==> EntryOk(id, s.view[id], cfg)
  }

  /** UpdateTask never loses a task: whatever it returns, the ids stay, and a failure after the
      removal has put the old definition back as a newly added entry. */
  lemma UpdateKeepsIds(s: WheelState, task: Option<Task>, now: int, p: bool, rn: int, rp: bool, cfg: Config)
    requires cfg.Ok() && StateOk(s, cfg)
    ensures var s' := UpdateStep(s, task, now, p, rn, rp, cfg);
            && s'.view.Keys == s.view.Keys
            && (forall id :: id in s.view && (task.None? || id != task.value.id) ==> s'.view[id] == s.view[id])
            && (UpdateResult(s, task).Ok? ==>
                  s'.view[task.value.id] == NewEntry(UpdateResult(s, task).value, now, cfg, p))
            && (UpdateResult(s, task).Err? ==>
                  s' == s || s'.view[task.value.id] == NewEntry(s.view[task.value.id].task, rn, cfg, rp))
  {
    if task.Some? && task.value.id in s.view {
      assert EntryOk(task.value.id, s.view[task.value.id], cfg);
    }
  }

  lemma ExecuteKeepsEntryOk(id: string, e: Entry, slot: int, now: int, o: RunOutcome, cfg: Config)
    requires cfg.Ok() && EntryOk(id, e, cfg)
    requires TickEntry(e, slot, now, o, cfg).Some?
    ensures EntryOk(id, TickEntry(e, slot, now, o, cfg).value, cfg)
  {
  }

  lemma UpdateKeepsEntryOk(s: WheelState, task: Option<Task>, now: int, p: bool, rn: int, rp: bool, id: string, cfg: Config)
    requires cfg.Ok() && StateOk(s, cfg)
    requires id in UpdateStep(s, task, now, p, rn, rp, cfg).view
    ensures EntryOk(id, UpdateStep(s, task, now, p, rn, rp, cfg).view[id], cfg)
  {
    UpdateKeepsIds(s, task, now, p, rn, rp, cfg);
    assert EntryOk(id, s.view[id], cfg);
    if UpdateResult(s, task).Ok? && id == task.value.id {
      NormalizeYieldsNormal(task);
    }
  }

  lemma StepKeepsEntryOk(s: WheelState, op: Op, id: string, cfg: Config)
    requires cfg.Ok() && StateOk(s, cfg)
    requires id in Step(s, op, cfg).view
    ensures EntryOk(id, Step(s, op, cfg).view[id], cfg)
  {
    if id in s.view {
      assert EntryOk(id, s.view[id], cfg);
    }
    match op
    case Update(t, now, p, rn, rp) =>
      UpdateKeepsEntryOk(s, t, now, p, rn, rp, id, cfg);
    case Add(t, _, _) =>
      if AddResult(s, t).Ok? {
        NormalizeYieldsNormal(t);
      }
    case Tick(now, outcomes) =>
      ExecuteKeepsEntryOk(id, s.view[id], CurrentSlot(s, cfg), now, outcomes(id), cfg);
    case _ =>
  }

  lemma StepKeepsStateOk(s: WheelState, op: Op, cfg: Config)
    requires cfg.Ok() && StateOk(s, cfg)
    ensures StateOk(Step(s, op, cfg), cfg)
  {
    forall id | id in Step(s, op, cfg).view ensures EntryOk(id, Step(s, op, cfg).view[id], cfg) {
      StepKeepsEntryOk(s, op, id, cfg);
    }
  }

  lemma {:induction false} RunKeepsStateOk(s: WheelState, ops: seq<Op>, cfg: Config)
    requires cfg.Ok() && StateOk(s, cfg)
    ensures StateOk(Run(s, ops, cfg), cfg)
  {
    if ops != [] {
      RunKeepsStateOk(s, ops[..|ops| - 1], cfg);
      StepKeepsStateOk(Run(s, ops[..|ops| - 1], cfg), ops[|ops| - 1], cfg);
    }
  }

  /** An operation that adds, updates, removes or clears may replace `id`; the others only step it. */
  predicate Replaces(op: Op, id: string) {
    match op
    case Add(t, _, _) => t.Some? && t.value.id == id
    case Update(t, _, _, _, _) => t.Some? && t.value.id == id
    case _ => false
  }

  /** How often the callback of `id` returned during `op`. */
  function Completions(s: WheelState, op: Op, id: string, cfg: Config): nat
    requires cfg.Ok()
  {
    if op.Tick? && id in s.view && Runs(s.view[id], CurrentSlot(s, cfg), op.now) && op.outcomes(id).Returned?
    then 1 else 0
  }

  function TotalCompletions(s: WheelState, ops: seq<Op>, id: string, cfg: Config): nat
    requires cfg.Ok()
  {
    if ops == [] then 0
    else
      var n := |ops| - 1;
      TotalCompletions(s, ops[..n], id, cfg) + Completions(Run(s, ops[..n], cfg), ops[n], id, cfg)
  }

  /** The completions a task has left: one for Once, `times` for FixedTimes; a task keeps a
      stable definition while it is not replaced. */
  function Quota(t: Task): nat
    requires IsNormal(t) && (t.mode == Once || t.mode == FixedTimes)
  {
    if t.mode == Once then 1 else t.times
  }

  /** One step of a task that is not replaced: it keeps its definition, its counter moves by its
      completions, and it leaves at the latest when its quota is used up. */
  lemma StepCounts(s: WheelState, op: Op, id: string, cfg: Config)
    requires cfg.Ok() && StateOk(s, cfg) && !Replaces(op, id)
    ensures id !in s.view ==> id !in Step(s, op, cfg).view && Completions(s, op, id, cfg) == 0
    ensures id in s.view ==>
              var e, c, v := s.view[id], Completions(s, op, id, cfg), Step(s, op, cfg).view;
              && (id in v ==> v[id].task == e.task && v[id].executed == e.executed + c)
              && (e.task.mode == Once || e.task.mode == FixedTimes ==>
                    e.executed < Quota(e.task) && (e.executed + c == Quota(e.task) ==> id !in v))
  {
    if id in s.view {
      assert EntryOk(id, s.view[id], cfg);
    }
  }

  /** Run counts: whatever happens to the wheel, a Once or FixedTimes task that is not replaced
      completes at most its quota, and after the last completion it is gone. While it is there
      its counter is the number of completions. */
  lemma {:induction false} QuotaBoundsCompletions(s: WheelState, ops: seq<Op>, id: string, cfg: Config)
    requires cfg.Ok() && StateOk(s, cfg) && id in s.view
    requires s.view[id].task.mode == Once || s.view[id].task.mode == FixedTimes
    requires forall k :: 0 <= k < |ops| ==> !Replaces(ops[k], id)
    ensures EntryOk(id, s.view[id], cfg)
    ensures var e := s.view[id];
            var total := TotalCompletions(s, ops, id, cfg);
            var v := Run(s, ops, cfg).view;
            && e.executed + total <= Quota(e.task)
            && (e.executed + total == Quota(e.task) ==> id !in v)
            && (id in v ==> v[id].task == e.task && v[id].executed == e.executed + total)
  {
    if ops != [] {
      var n := |ops| - 1;
      QuotaBoundsCompletions(s, ops[..n], id, cfg);
      RunKeepsStateOk(s, ops[..n], cfg);
      StepCounts(Run(s, ops[..n], cfg), ops[n], id, cfg);
    }
  }

  /** A panicking Once task is never counted and never leaves: each visit runs it again. */
  lemma PanicKeepsEntry(s: WheelState, id: string, now: int, outcomes: string -> RunOutcome, cfg: Config)
    requires cfg.Ok() && id in s.view && Runs(s.view[id], CurrentSlot(s, cfg), now)
    ensures outcomes(id).Panicked? <==> var s' := TickStep(s, now, outcomes, cfg); id in s'.view && s'.view[id] == s.view[id]
  {
  }

  /** Operations that do not touch the entry of `id` itself; an add of the same id is refused. */
  predicate Ignores(op: Op, id: string) {
    match op
    case Remove(x) => x != id
    case Update(t, _, _, _, _) => t.None? || t.value.id != id
    case Resume(x, _) => x != id
    case Clear => false
    case _ => true
  }

  lemma StepKeepsPaused(s: WheelState, op: Op, id: string, cfg: Config)
    requires cfg.Ok() && StateOk(s, cfg) && id in s.view && s.view[id].paused && Ignores(op, id)
    ensures var v := Step(s, op, cfg).view; id in v && v[id] == s.view[id]
    ensures Completions(s, op, id, cfg) == 0
  {
    if op.Update? {
      UpdateKeepsIds(s, op.task, op.now, op.paused, op.restoreNow, op.restorePaused, cfg);
    }
  }

  /** A paused task stays exactly as it is, and never runs, however often its slot is visited, until
      it is resumed, updated or removed. */
  lemma {:induction false} PausedNeverRuns(s: WheelState, ops: seq<Op>, id: string, cfg: Config)
    requires cfg.Ok() && StateOk(s, cfg) && id in s.view && s.view[id].paused
    requires forall k :: 0 <= k < |ops| ==> Ignores(ops[k], id)
    ensures var v := Run(s, ops, cfg).view; id in v && v[id] == s.view[id]
    ensures TotalCompletions(s, ops, id, cfg) == 0
  {
    if ops != [] {
      var n := |ops| - 1;
      PausedNeverRuns(s, ops[..n], id, cfg);
      RunKeepsStateOk(s, ops[..n], cfg);
      StepKeepsPaused(Run(s, ops[..n], cfg), ops[n], id, cfg);
    }
  }
}
