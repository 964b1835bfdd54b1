/** What the operations of a wheel answer and change, said without the functions that compute it. */
module WheelMeaning {
  import opened TaskModel
  import opened Alerts
  import opened WheelSpec

  // ---------- Answers ----------

  /** No task, no id or no callback. */
  predicate Unusable(task: Option<Task>) {
    task.None? || task.value.id == "" || !task.value.hasRun
  }

  /** FixedTimes without a number of times. */
  predicate WithoutTimes(t: Task) {
    t.mode == FixedTimes && t.times <= 0
  }

  /** An interval is missing, and only Once tasks get one. */
  predicate WithoutInterval(t: Task) {
    t.mode != Once && t.interval <= 0
  }

  predicate Valid(task: Option<Task>) {
    !Unusable(task) && !WithoutTimes(task.value) && !WithoutInterval(task.value)
  }

  /** The definition a wheel keeps of a valid task: a mode outside the three is Repeated, and a Once task
      without an interval runs after one millisecond. */
  predicate KeptAs(t: Task, kept: Task) {
    && kept.id == t.id && kept.priority == t.priority && kept.times == t.times && kept.hasRun == t.hasRun
    && kept.forDuration == t.forDuration && kept.repeatInterval == t.repeatInterval
    && kept.mode == (if t.mode == Once || t.mode == FixedTimes then t.mode else Repeated)
    && kept.interval == if t.mode == Once && t.interval <= 0 then 1_000_000 else t.interval
  }

  /** Which error AddTask gives, and which comes first. */
  lemma AddAnswers(s: WheelState, task: Option<Task>)
    ensures var r := AddResult(s, task);
            && (r == Err(InvalidParam) <==> Unusable(task))
            && (r == Err(TimesInvalid) <==> !Unusable(task) && WithoutTimes(task.value))
            && (r == Err(IntervalInvalid) <==> !Unusable(task) && !WithoutTimes(task.value) && WithoutInterval(task.value))
            && (r == Err(WheelNotRunning) <==> Valid(task) && !s.running)
            && (r == Err(TaskAlreadyExists) <==> Valid(task) && s.running && task.value.id in s.view)
            && (r.Ok? <==> Valid(task) && s.running && task.value.id !in s.view)
            && (r.Ok? ==> KeptAs(task.value, r.value))
  {
  }

  lemma LookupAnswers(s: WheelState, id: string)
    ensures var r := LookupResult(s, id);
            && (r == Err(InvalidParam) <==> id == "")
            && (r == Err(TaskNotFound) <==> id != "" && id !in s.view)
            && (r.Ok? <==> id != "" && id in s.view)
  {
  }

  /** UpdateTask looks for the task first and validates it then; the id is free by that time. */
  lemma UpdateAnswers(s: WheelState, task: Option<Task>)
    ensures var r := UpdateResult(s, task);
            var known := !Unusable(task) && s.running && task.value.id in s.view;
            && (r == Err(InvalidParam) <==> Unusable(task))
            && (r == Err(WheelNotRunning) <==> !Unusable(task) && !s.running)
            && (r == Err(TaskNotFound) <==> !Unusable(task) && s.running && task.value.id !in s.view)
            && (r == Err(TimesInvalid) <==> known && WithoutTimes(task.value))
            && (r == Err(IntervalInvalid) <==> known && !WithoutTimes(task.value) && WithoutInterval(task.value))
            && (r.Ok? <==> known && Valid(task))
            && (r.Ok? ==> KeptAs(task.value, r.value))
  {
  }

  // ---------- Changes ----------

  /** Everything is as before, but for the entries of one id. */
  ghost predicate Besides(s: WheelState, s': WheelState, id: string) {
    && s'.running == s.running && s'.cursor == s.cursor
    && (forall x :: x != id ==> (x in s'.view <==> x in s.view))
    && (forall x <- s.view :: x != id ==> s'.view[x] == s.view[x])
  }

  /** A new entry: due one interval after the call, in the slot of that time, with nothing run so far. */
  predicate IsNew(e: Entry, kept: Task, now: int, paused: bool, cfg: Config)
    requires cfg.Ok()
  {
    && e.task == kept && e.addedAt == now && e.runAt == now + kept.interval && e.executed == 0 && e.paused == paused
    && e.alert.state == Pending && e.alert.pendingSince.None? && e.alert.lastFiredAt.None?
    && e.lastResult == AlarmResult(0.0, 0.0, false)
    && InSlotOf(e, now, kept.interval, cfg)
  }

  /** The slot counts whole milliseconds, and ticks below a millisecond as milliseconds. */
  predicate InSlotOf(e: Entry, now: int, delay: int, cfg: Config)
    requires cfg.Ok()
  {
    var ms := now / 1_000_000 + delay / 1_000_000;
    if cfg.interval < 1_000_000 then e.slotIndex == ms % cfg.slotNum
    else e.slotIndex == ms / (cfg.interval / 1_000_000) % cfg.slotNum
  }

  lemma AddMeans(s: WheelState, task: Option<Task>, now: int, paused: bool, cfg: Config)
    requires cfg.Ok()
    ensures var s' := Step(s, Op.Add(task, now, paused), cfg);
            if Valid(task) && s.running && task.value.id !in s.view then
              var id := task.value.id;
              && Besides(s, s', id) && id in s'.view
              && KeptAs(task.value, s'.view[id].task) && IsNew(s'.view[id], s'.view[id].task, now, paused, cfg)
            else s' == s
  {
    AddAnswers(s, task);
  }

  lemma RemoveMeans(s: WheelState, id: string, cfg: Config)
    requires cfg.Ok()
    ensures var s' := Step(s, Op.Remove(id), cfg);
            if id != "" then Besides(s, s', id) && id !in s'.view else s' == s
  {
  }

  /** On success the entry is new, with the new definition; if only validation fails, it is new with the
      old one; otherwise nothing changed. */
  lemma UpdateMeans(s: WheelState, task: Option<Task>, now: int, p: bool, rn: int, rp: bool, cfg: Config)
    requires cfg.Ok() && StateOk(s, cfg)
    ensures var s' := Step(s, Op.Update(task, now, p, rn, rp), cfg);
            if !Unusable(task) && s.running && task.value.id in s.view then
              var id := task.value.id;
              && Besides(s, s', id) && id in s'.view
              && (if Valid(task) then KeptAs(task.value, s'.view[id].task) && IsNew(s'.view[id], s'.view[id].task, now, p, cfg)
                  else IsNew(s'.view[id], s.view[id].task, rn, rp, cfg))
            else s' == s
  {
    if !Unusable(task) && s.running && task.value.id in s.view {
      var id := task.value.id;
      var was := s.view[id].task;
      assert EntryOk(id, s.view[id], cfg);
      var s1 := Step(s, Op.Remove(id), cfg);
      RemoveMeans(s, id, cfg);
      AddAnswers(s1, task);
      AddMeans(s1, task, now, p, cfg);
      NormalIsKept(was);
      AddMeans(s1, Some(was), rn, rp, cfg);
    }
    hide Normalize, AddResult, StateOk, EntryOk, NewEntry, KeptAs, Valid, IsNormal;
  }

  lemma NormalIsKept(t: Task)
    requires IsNormal(t)
    ensures Valid(Some(t)) && forall kept :: KeptAs(t, kept) ==> kept == t
  {
  }

  lemma ClearMeans(s: WheelState, cfg: Config)
    requires cfg.Ok()
    ensures var s' := Step(s, Op.Clear, cfg); s'.view == map[] && s'.running == s.running && s'.cursor == s.cursor
  {
  }

  lemma StopMeans(s: WheelState, cfg: Config)
    requires cfg.Ok()
    ensures var s' := Step(s, Op.Stop, cfg); !s'.running && s'.view == s.view && s'.cursor == s.cursor
  {
  }

  /** Start keeps the tasks and sets the flag even if it then panics; the counter follows the clock. */
  lemma StartMeans(s: WheelState, now: int, cfg: Config)
    requires cfg.Ok()
    ensures var s' := Step(s, Op.Start(now), cfg);
            && s'.running && s'.view == s.view
            && (s.running ==> s' == s)
            && (StartPanics(s, cfg) <==> !s.running && cfg.interval < 1_000_000)
            && (!s.running && cfg.interval < 1_000_000 ==> s'.cursor == s.cursor)
            && (!s.running && cfg.interval >= 1_000_000 ==> s'.cursor == now / 1_000_000 / (cfg.interval / 1_000_000) % cfg.slotNum)
  {
  }

  // ---------- Ticks ----------

  /** Whether a tick runs a task. */
  predicate IsRunBy(s: WheelState, id: string, now: int, cfg: Config)
    requires cfg.Ok()
  {
    id in s.view && !s.view[id].paused && s.view[id].slotIndex == (s.cursor + 1) % cfg.slotNum && s.view[id].runAt <= now
  }

  /** What a task looks like after its callback returned `r`, if it goes on. */
  predicate IsKept(e: Entry, e': Entry, r: AlarmResult, now: int, cfg: Config)
    requires cfg.Ok()
  {
    && e'.task == e.task && e'.executed == e.executed + 1 && e'.lastResult == r && !e'.paused && e'.addedAt == e.addedAt
    && e'.runAt == now + e.task.interval && InSlotOf(e', now, e.task.interval, cfg)
    && e'.alert == Handle(e.alert, r.isFiring, e.task.forDuration, e.task.repeatInterval, now).track
  }

  /** The entries a tick does not run, or whose callback panics, stay as they are. A task that ran stays
      unless it is Once, or FixedTimes and has now run its number of times. */
  lemma TickMeans(s: WheelState, now: int, outcomes: string -> RunOutcome, id: string, cfg: Config)
    requires cfg.Ok()
    ensures var s' := Step(s, Op.Tick(now, outcomes), cfg);
            && s'.running == s.running && s'.cursor == s.cursor + 1
            && (id !in s.view ==> id !in s'.view)
            && (id in s.view && !(IsRunBy(s, id, now, cfg) && outcomes(id).Returned?) ==> id in s'.view && s'.view[id] == s.view[id])
            && (id in s.view && IsRunBy(s, id, now, cfg) && outcomes(id).Returned? ==>
                  var e := s.view[id];
                  if e.task.mode == Once || (e.task.mode == FixedTimes && e.executed + 1 >= e.task.times) then id !in s'.view
                  else id in s'.view && IsKept(e, s'.view[id], outcomes(id).result, now, cfg))
  {
    hide Handle;
  }

  // ---------- Records ----------

  /** Each record names its task and carries the result that caused it. */
  lemma RecordsMean(history: seq<HistoryRecord>, e: Entry, o: RunOutcome, now: int)
    ensures var h := Logged(history, e, o, now);
            && |h| >= |history| && h[..|history|] == history
            && (e.paused || o.Panicked? ==> h == history)
            && (!e.paused && o.Returned? ==>
                  forall k :: |history| <= k < |h| ==> h[k].taskId == e.task.id && h[k].result == o.result)
  {
    hide Alert;
  }

  /** The number of records that end in Firing. */
  function FiringIn(history: seq<HistoryRecord>): nat {
    if history == [] then 0
    else FiringIn(history[..|history| - 1]) + if history[|history| - 1].notice.newState == Firing then 1 else 0
  }

  lemma OneRecord(history: seq<HistoryRecord>, r: HistoryRecord)
    ensures FiringIn(history + [r]) == FiringIn(history) + if r.notice.newState == Firing then 1 else 0
  {
    assert (history + [r])[..|history|] == history;
  }

  /** The alert counter grows by the records that end in Firing. */
  lemma CountedAreRecorded(history: seq<HistoryRecord>, e: Entry, o: RunOutcome, now: int)
    ensures FiringIn(Logged(history, e, o, now)) == FiringIn(history) + Counted(e, o, now)
  {
    if !e.paused && o.Returned? {
      var notices := Alert(e, o.result, now).notices;
      if notices == [] {
        assert Logged(history, e, o, now) == history;
      } else {
        OneRecord(history, HistoryRecord(e.task.id, notices[0], o.result));
        assert |notices| == 1;
        assert Records(e.task.id, notices, o.result) == [HistoryRecord(e.task.id, notices[0], o.result)];
      }
    }
  }

  /** The tasks among `ids` that complete a run: not paused, and their callbacks return. */
  ghost function Completing(v: View, ids: seq<string>, outcomes: string -> RunOutcome): set<string> {
    set id | id in ids && id in v && !v[id].paused && outcomes(id).Returned?
  }

  lemma OneMoreCompletes(v: View, ids: seq<string>, id: string, outcomes: string -> RunOutcome)
    requires id !in ids && id in v
    ensures |Completing(v, ids + [id], outcomes)| ==
              |Completing(v, ids, outcomes)| + if !v[id].paused && outcomes(id).Returned? then 1 else 0
  {
    var was := Completing(v, ids, outcomes);
    if !v[id].paused && outcomes(id).Returned? {
      assert Completing(v, ids + [id], outcomes) == was + {id};
    } else {
      assert Completing(v, ids + [id], outcomes) == was;
    }
  }

  /** What a wheel counts and records: completions, alerts and the history. */
  datatype Books = Books(stats: nat, alerts: nat, history: seq<HistoryRecord>)

  /** The tasks `done` ran one after another from the entries `v`: the history has their records, the
      completions are counted, and so is every record that ends in Firing. */
  ghost predicate Booked(was: Books, now: Books, v: View, done: seq<string>, outcomes: string -> RunOutcome, time: int) {
    && (forall id :: id in done ==> id in v)
    && now.history == LogAll(was.history, v, done, outcomes, time)
    && now.stats == was.stats + |Completing(v, done, outcomes)|
    && now.alerts + FiringIn(was.history) == was.alerts + FiringIn(now.history)
  }

  lemma NothingBooked(b: Books, v: View, outcomes: string -> RunOutcome, time: int)
    ensures Booked(b, b, v, [], outcomes, time)
  {
  }

  lemma BookOne(was: Books, b: Books, v: View, done: seq<string>, id: string, outcomes: string -> RunOutcome, time: int)
    requires Booked(was, b, v, done, outcomes, time) && id !in done && id in v
    ensures var e, o := v[id], outcomes(id);
            var b' := Books(b.stats + if e.paused || o.Panicked? then 0 else 1, b.alerts + Counted(e, o, time), Logged(b.history, e, o, time));
            Booked(was, b', v, done + [id], outcomes, time)
  {
    hide Logged, Counted, FiringIn;
    assert (done + [id])[..|done|] == done;
    OneMoreCompletes(v, done, id, outcomes);
    CountedAreRecorded(b.history, v[id], outcomes(id), time);
    hide Completing;
  }
}
