/** Whole runs of a wheel: the alert state of a task follows its evaluations, and its runs are spaced. */
module WheelRuns {
  import opened TaskModel
  import opened Alerts
  import opened WheelSpec
  import opened PoolSpec
  import opened WheelTiming

  // ---------- Evaluations ----------

  /** The result that the callback of `id` returns during `op`, if it runs and returns. */
  function Returns(s: WheelState, op: Op, id: string, cfg: Config): Option<Eval>
    requires cfg.Ok()
  {
    if Completions(s, op, id, cfg) == 1 then Some(Eval(op.now, op.outcomes(id).result.isFiring)) else None
  }

  /** The evaluations of `id` since it was last entered. */
  function Evals(s: WheelState, ops: seq<Op>, id: string, cfg: Config): seq<Eval>
    requires cfg.Ok()
  {
    if ops == [] then []
    else
      var n := |ops| - 1;
      var m, r := Run(s, ops[..n], cfg), Returns(Run(s, ops[..n], cfg), ops[n], id, cfg);
      if Entered(m, ops[n]) == Some(id) then []
      else Evals(s, ops[..n], id, cfg) + if r.Some? then [r.value] else []
  }

  /** The history records that `op` adds for `id`. */
  function StepNotices(s: WheelState, op: Op, id: string, cfg: Config): seq<Notice>
    requires cfg.Ok()
  {
    if Completions(s, op, id, cfg) == 1 then Alert(s.view[id], op.outcomes(id).result, op.now).notices else []
  }

  /** The history records of `id` since it was last entered. */
  function Notices(s: WheelState, ops: seq<Op>, id: string, cfg: Config): seq<Notice>
    requires cfg.Ok()
  {
    if ops == [] then []
    else
      var n := |ops| - 1;
      var m := Run(s, ops[..n], cfg);
      if Entered(m, ops[n]) == Some(id) then []
      else Notices(s, ops[..n], id, cfg) + StepNotices(m, ops[n], id, cfg)
  }

  /** The entry's alert fields are those that the evaluations `h` lead to. */
  predicate Tracks(e: Entry, h: seq<Eval>) {
    e.alert == After(h, e.task.forDuration, e.task.repeatInterval)
  }

  lemma AfterOneMore(h: seq<Eval>, e: Eval, f: int, r: int)
    ensures After(h + [e], f, r) == Handle(After(h, f, r), e.firing, f, r, e.at).track
    ensures Log(h + [e], f, r) == Log(h, f, r) + Handle(After(h, f, r), e.firing, f, r, e.at).notices
  {
    assert (h + [e])[..|h|] == h;
  }

  lemma EnteredIsFresh(s: WheelState, op: Op, id: string, cfg: Config)
    requires cfg.Ok() && StateOk(s, cfg) && Entered(s, op) == Some(id)
    ensures id in Step(s, op, cfg).view && Step(s, op, cfg).view[id].alert == FRESH_TRACK
  {
    match op
    case Add(t, now, paused) => NormalizeYieldsNormal(t);
    case Update(t, now, paused, rn, rp) =>
      UpdateKeepsIds(s, t, now, paused, rn, rp, cfg);
      assert EntryOk(id, s.view[id], cfg);
    case _ =>
  }

  /** Without entering it, an operation leaves task and alert fields of an entry, or completes a run. */
  lemma StepTracks(s: WheelState, op: Op, id: string, cfg: Config)
    requires cfg.Ok() && StateOk(s, cfg) && Entered(s, op) != Some(id) && id in Step(s, op, cfg).view
    ensures id in s.view
    ensures var e, e' := s.view[id], Step(s, op, cfg).view[id];
            && e'.task == e.task
            && e'.alert == if Completions(s, op, id, cfg) == 1 then Alert(e, op.outcomes(id).result, op.now).track else e.alert
  {
    match op
    case Add(t, now, paused) => if AddResult(s, t).Ok? { NormalizeYieldsNormal(t); }
    case Update(t, now, paused, rn, rp) => UpdateKeepsIds(s, t, now, paused, rn, rp, cfg);
    case Tick(now, outcomes) => TickTracks(s, now, outcomes, id, cfg);
    case _ =>
  }

  lemma TickTracks(s: WheelState, now: int, outcomes: string -> RunOutcome, id: string, cfg: Config)
    requires cfg.Ok() && id in TickStep(s, now, outcomes, cfg).view
    ensures id in s.view
    ensures var e, e' := s.view[id], TickStep(s, now, outcomes, cfg).view[id];
            && e'.task == e.task
            && e'.alert == if Completions(s, Op.Tick(now, outcomes), id, cfg) == 1 then Alert(e, outcomes(id).result, now).track else e.alert
  {
    hide Alert, SlotFor;
  }

  lemma OneMore(m: WheelState, op: Op, id: string, h: seq<Eval>, e': Entry, cfg: Config)
    requires cfg.Ok() && id in m.view && Tracks(m.view[id], h) && e'.task == m.view[id].task
    requires e'.alert == if Completions(m, op, id, cfg) == 1 then Alert(m.view[id], op.outcomes(id).result, op.now).track else m.view[id].alert
    ensures var r := Returns(m, op, id, cfg);
            var h' := h + if r.Some? then [r.value] else [];
            var f, i := e'.task.forDuration, e'.task.repeatInterval;
            Tracks(e', h') && Log(h', f, i) == Log(h, f, i) + StepNotices(m, op, id, cfg)
  {
    var r := Returns(m, op, id, cfg);
    if r.Some? {
      AfterOneMore(h, r.value, e'.task.forDuration, e'.task.repeatInterval);
    } else {
      assert h + [] == h;
    }
    hide After, Log, Handle, Completions;
  }

  /** Over every run, from a wheel whose tasks are new: the alert fields of a task are those of its
      evaluations since it was entered, and its records are the log of those evaluations. */
  lemma {:induction false} AlertsFollowEvals(s: WheelState, ops: seq<Op>, id: string, cfg: Config)
    requires cfg.Ok() && StateOk(s, cfg) && (id in s.view ==> s.view[id].alert == FRESH_TRACK)
    requires id in Run(s, ops, cfg).view
    ensures var e, h := Run(s, ops, cfg).view[id], Evals(s, ops, id, cfg);
            Tracks(e, h) && Notices(s, ops, id, cfg) == Log(h, e.task.forDuration, e.task.repeatInterval)
  {
    if ops != [] {
      var n := |ops| - 1;
      var m, op := Run(s, ops[..n], cfg), ops[n];
      RunKeepsStateOk(s, ops[..n], cfg);
      assert Run(s, ops, cfg) == Step(m, op, cfg);
      hide StateOk, Step, Entered, Run;
      if Entered(m, op) == Some(id) {
        EnteredIsFresh(m, op, id, cfg);
      } else {
        StepTracks(m, op, id, cfg);
        AlertsFollowEvals(s, ops[..n], id, cfg);
        OneMore(m, op, id, Evals(s, ops[..n], id, cfg), Step(m, op, cfg).view[id], cfg);
        hide Completions, Returns, StepNotices, Tracks, Log;
      }
    }
  }

  /** So the state of every task is the declared one, and its records replay to it. */
  lemma StatesAreDeclared(s: WheelState, ops: seq<Op>, id: string, cfg: Config)
    requires cfg.Ok() && StateOk(s, cfg) && (id in s.view ==> s.view[id].alert == FRESH_TRACK)
    requires id in Run(s, ops, cfg).view
    ensures var e := Run(s, ops, cfg).view[id];
            && e.alert.state == Declared(Evals(s, ops, id, cfg), e.task.forDuration)
            && Replay(Pending, Notices(s, ops, id, cfg)) == Some(e.alert.state)
  {
    var e, h := Run(s, ops, cfg).view[id], Evals(s, ops, id, cfg);
    AlertsFollowEvals(s, ops, id, cfg);
    hide Run, StateOk, Evals, Notices;
    MachineMeetsDeclaration(h, e.task.forDuration, e.task.repeatInterval);
    LogReplaysToState(h, e.task.forDuration, e.task.repeatInterval);
  }

  // ---------- The history of the wheel ----------

  /** The records of one task in the history of all. */
  function Of(history: seq<HistoryRecord>, id: string): seq<Notice> {
    if history == [] then []
    else
      var n := |history| - 1;
      Of(history[..n], id) + if history[n].taskId == id then [history[n].notice] else []
  }

  lemma {:induction false} OfConcat(g: seq<HistoryRecord>, h: seq<HistoryRecord>, id: string)
    ensures Of(g + h, id) == Of(g, id) + Of(h, id)
  {
    if h == [] {
      assert g + h == g;
    } else {
      assert (g + h)[..|g + h| - 1] == g + h[..|h| - 1];
      OfConcat(g, h[..|h| - 1], id);
    }
  }

  lemma {:induction false} OfRecords(id: string, notices: seq<Notice>, r: AlarmResult, other: string)
    ensures Of(Records(id, notices, r), other) == if other == id then notices else []
  {
    if notices != [] {
      var n := |notices| - 1;
      OfRecords(id, notices[..n], r, other);
      assert Records(id, notices, r)[..n] == Records(id, notices[..n], r);
      assert notices == notices[..n] + [notices[n]];
    }
  }

  lemma LoggedOf(history: seq<HistoryRecord>, e: Entry, o: RunOutcome, now: int, id: string)
    ensures Of(Logged(history, e, o, now), id) ==
              Of(history, id) + if e.task.id == id && !e.paused && o.Returned? then Alert(e, o.result, now).notices else []
  {
    if !e.paused && o.Returned? {
      var notices := Alert(e, o.result, now).notices;
      OfConcat(history, Records(e.task.id, notices, o.result), id);
      OfRecords(e.task.id, notices, o.result, id);
    }
    hide Of, Records, Alert;
  }

  lemma LastOf(order: seq<string>)
    requires order != [] && Distinct(order)
    ensures var n := |order| - 1;
            && Distinct(order[..n]) && order[n] !in order[..n] && order[n] in order
            && forall y :: y in order <==> y in order[..n] || y == order[n]
  {
    assert order == order[..|order| - 1] + [order[|order| - 1]];
  }

  /** Whatever the order in which a tick runs its tasks, it adds to the records of each task exactly
      those of its own run. */
  lemma {:induction false} TickRecords(history: seq<HistoryRecord>, s: WheelState, order: seq<string>, outcomes: string -> RunOutcome, now: int, id: string, cfg: Config)
    requires cfg.Ok() && StateOk(s, cfg) && Distinct(order)
    requires forall x :: x in order ==> x in s.view && Due(s.view[x], CurrentSlot(s, cfg), now)
    ensures Of(LogAll(history, s.view, order, outcomes, now), id) ==
              Of(history, id) + if id in order then StepNotices(s, Op.Tick(now, outcomes), id, cfg) else []
  {
    if order != [] {
      var n := |order| - 1;
      var x := order[n];
      LastOf(order);
      assert EntryOk(x, s.view[x], cfg);
      hide Logged, Alert, Of, StateOk, Distinct, EntryOk;
      TickRecords(history, s, order[..n], outcomes, now, id, cfg);
      LoggedOf(LogAll(history, s.view, order[..n], outcomes, now), s.view[x], outcomes(x), now, id);
    }
  }

  // ---------- Spacing of runs ----------

  /** The callback of `id` never panics. */
  predicate NeverPanics(ops: seq<Op>, id: string) {
    forall k :: 0 <= k < |ops| && ops[k].Tick? ==> ops[k].outcomes(id).Returned?
  }

  predicate AllLeaveAlone(ops: seq<Op>, id: string) {
    forall k :: 0 <= k < |ops| ==> LeavesAlone(ops[k], id)
  }

  lemma PrefixTicks(ops: seq<Op>, n: nat, t0: int, interval: int)
    requires TicksEvery(ops, t0, interval) && n <= |ops|
    ensures TicksEvery(ops[..n], t0, interval)
  {
    forall k | 0 <= k < n && ops[..n][k].Tick? ensures ops[..n][k].now == t0 + Ticks(ops[..n][..k]) * interval {
      assert ops[..n][..k] == ops[..k];
    }
  }

  /** Where the tick with number `j` is. */
  lemma {:induction false} TickAt(ops: seq<Op>, j: nat) returns (p: nat)
    requires j < Ticks(ops)
    ensures p < |ops| && ops[p].Tick? && Ticks(ops[..p]) == j
  {
    var n := |ops| - 1;
    if j < Ticks(ops[..n]) {
      p := TickAt(ops[..n], j);
      assert ops[..n][..p] == ops[..p];
    } else {
      p := n;
    }
  }

  lemma {:induction false} CompletionsGrow(s: WheelState, ops: seq<Op>, p: nat, id: string, cfg: Config)
    requires cfg.Ok() && p < |ops|
    ensures TotalCompletions(s, ops, id, cfg) >= Completions(Run(s, ops[..p], cfg), ops[p], id, cfg)
  {
    var n := |ops| - 1;
    if p < n {
      CompletionsGrow(s, ops[..n], p, id, cfg);
      assert ops[..n][..p] == ops[..p];
    }
    hide Completions;
  }

  /** At its first firing tick an unpaused task completes, unless it panics. */
  lemma CompletesAtFirstFire(s: WheelState, ops: seq<Op>, p: nat, id: string, t0: int, j: nat, cfg: Config)
    requires cfg.Ok() && StateOk(s, cfg) && s.running && id in s.view && !s.view[id].paused
    requires AllLeaveAlone(ops, id) && NeverPanics(ops, id) && TicksEvery(ops, t0, cfg.interval)
    requires FirstFires(s.view[id], s.cursor, t0, j, cfg)
    requires p < |ops| && ops[p].Tick? && Ticks(ops[..p]) == j
    ensures Completions(Run(s, ops[..p], cfg), ops[p], id, cfg) == 1
  {
    PrefixTicks(ops, p, t0, cfg.interval);
    hide StateOk;
    UntouchedUntilFirstFire(s, ops[..p], id, t0, j, cfg);
    hide Run, LeavesAlone, TicksEvery;
    assert Fires(s.view[id], s.cursor, t0, j, cfg);
  }

  /** The first completion is at the first firing tick. */
  lemma FirstCompletion(s: WheelState, ops: seq<Op>, id: string, t0: int, j: nat, cfg: Config)
    requires cfg.Ok() && StateOk(s, cfg) && s.running && id in s.view && !s.view[id].paused
    requires AllLeaveAlone(ops, id) && NeverPanics(ops, id) && TicksEvery(ops, t0, cfg.interval)
    requires FirstFires(s.view[id], s.cursor, t0, j, cfg)
    requires ops != [] && TotalCompletions(s, ops[..|ops| - 1], id, cfg) == 0
    requires Completions(Run(s, ops[..|ops| - 1], cfg), ops[|ops| - 1], id, cfg) == 1
    ensures ops[|ops| - 1].now == t0 + j * cfg.interval
  {
    var n := |ops| - 1;
    var k := Ticks(ops[..n]);
    assert ops[n].now == t0 + k * cfg.interval;
    hide StateOk, Run, Completions, TotalCompletions, TicksEvery, Fires;
    if k > j {
      CompletesBefore(s, ops, n, id, t0, j, cfg);
    } else {
      PrefixTicks(ops, n, t0, cfg.interval);
      UntouchedUntilFirstFire(s, ops[..n], id, t0, j, cfg);
      FiresWhenItCompletes(Run(s, ops[..n], cfg), ops[n], id, s.view[id], s.cursor, t0, k, cfg);
    }
  }

  lemma CompletesBefore(s: WheelState, ops: seq<Op>, n: nat, id: string, t0: int, j: nat, cfg: Config)
    requires cfg.Ok() && StateOk(s, cfg) && s.running && id in s.view && !s.view[id].paused
    requires AllLeaveAlone(ops, id) && NeverPanics(ops, id) && TicksEvery(ops, t0, cfg.interval)
    requires FirstFires(s.view[id], s.cursor, t0, j, cfg) && n <= |ops| && j < Ticks(ops[..n])
    ensures TotalCompletions(s, ops[..n], id, cfg) >= 1
  {
    hide StateOk, Run, Completions, TotalCompletions, TicksEvery, FirstFires, AllLeaveAlone, NeverPanics;
    var p := TickAt(ops[..n], j);
    assert ops[..n][..p] == ops[..p] && ops[..n][p] == ops[p];
    CompletesAtFirstFire(s, ops, p, id, t0, j, cfg);
    CompletionsGrow(s, ops[..n], p, id, cfg);
  }

  lemma FiresWhenItCompletes(m: WheelState, op: Op, id: string, e: Entry, cursor: int, t0: int, k: nat, cfg: Config)
    requires cfg.Ok() && Completions(m, op, id, cfg) == 1
    requires id in m.view && m.view[id] == e && m.cursor == cursor + k && op.now == t0 + k * cfg.interval
    ensures Fires(e, cursor, t0, k, cfg)
  {
  }

  /** A task that runs again after one more completion. */
  predicate GoesOn(e: Entry) {
    e.task.mode == Repeated || (e.task.mode == FixedTimes && e.executed + 1 < e.task.times)
  }

  /** A completed run of a task that goes on: when its next one is due. */
  lemma AfterRun(s: WheelState, t: int, outcomes: string -> RunOutcome, id: string, cfg: Config) returns (j: nat)
    requires cfg.Ok() && StateOk(s, cfg) && id in s.view && GoesOn(s.view[id])
    requires Completions(s, Op.Tick(t, outcomes), id, cfg) == 1
    ensures var s1 := Step(s, Op.Tick(t, outcomes), cfg);
            && StateOk(s1, cfg) && s1.running == s.running && id in s1.view && !s1.view[id].paused
            && s1.view[id].task == s.view[id].task && s1.view[id].executed == s.view[id].executed + 1
            && FirstFires(s1.view[id], s1.cursor, t + cfg.interval, j, cfg)
    ensures var gap := cfg.interval + j * cfg.interval;
            s.view[id].task.interval <= gap < s.view[id].task.interval + Rotation(cfg)
  {
    StepKeepsStateOk(s, Op.Tick(t, outcomes), cfg);
    assert EntryOk(id, s.view[id], cfg);
    NormalizeYieldsNormal(Some(s.view[id].task));
    j := NextRun(s.view[id], outcomes(id).result, t, s.cursor + 1, cfg);
    hide FirstFires, StateOk, Rotation, Alert, SlotFor;
  }

  /** In every run, two successive completions of a task that goes on, is not paused, replaced or removed
      and never panics are at least its interval and less than the interval plus a rotation apart. */
  lemma SuccessiveRuns(s: WheelState, t: int, outcomes: string -> RunOutcome, ops: seq<Op>, id: string, cfg: Config)
    requires cfg.Ok() && StateOk(s, cfg) && s.running && id in s.view && GoesOn(s.view[id])
    requires Completions(s, Op.Tick(t, outcomes), id, cfg) == 1
    requires AllLeaveAlone(ops, id) && NeverPanics(ops, id) && TicksEvery(ops, t + cfg.interval, cfg.interval)
    requires ops != []
    requires var s1 := Step(s, Op.Tick(t, outcomes), cfg);
             && TotalCompletions(s1, ops[..|ops| - 1], id, cfg) == 0
             && Completions(Run(s1, ops[..|ops| - 1], cfg), ops[|ops| - 1], id, cfg) == 1
    ensures s.view[id].task.interval <= ops[|ops| - 1].now - t < s.view[id].task.interval + Rotation(cfg)
  {
    hide StateOk, Step, Run, AllLeaveAlone, NeverPanics, TicksEvery, FirstFires, Rotation, TotalCompletions;
    var j := AfterRun(s, t, outcomes, id, cfg);
    FirstCompletion(Step(s, Op.Tick(t, outcomes), cfg), ops, id, t + cfg.interval, j, cfg);
  }

  /** And there is a next completion: once the ticks cover the interval and a rotation. */
  lemma RunsAgain(s: WheelState, t: int, outcomes: string -> RunOutcome, ops: seq<Op>, id: string, cfg: Config)
    requires cfg.Ok() && StateOk(s, cfg) && s.running && id in s.view && GoesOn(s.view[id])
    requires Completions(s, Op.Tick(t, outcomes), id, cfg) == 1
    requires AllLeaveAlone(ops, id) && NeverPanics(ops, id) && TicksEvery(ops, t + cfg.interval, cfg.interval)
    requires Ticks(ops) * cfg.interval >= s.view[id].task.interval + Rotation(cfg)
    ensures TotalCompletions(Step(s, Op.Tick(t, outcomes), cfg), ops, id, cfg) >= 1
  {
    hide StateOk, Step, Run, AllLeaveAlone, NeverPanics, TicksEvery, FirstFires, Rotation, TotalCompletions, Completions, Ticks;
    var j := AfterRun(s, t, outcomes, id, cfg);
    Fewer(j, Ticks(ops), cfg.interval);
    assert ops[..|ops|] == ops;
    CompletesBefore(Step(s, Op.Tick(t, outcomes), cfg), ops, |ops|, id, t + cfg.interval, j, cfg);
  }

  lemma Fewer(j: int, n: int, i: int)
    requires i > 0
    ensures i + j * i < n * i ==> j < n
  {
    if j >= n {
      Scale(n, j, i);
    }
  }

  // ---------- All runs of a task with a quota ----------

  /** Operations that leave the task alone and do not enter it anew. */
  predicate OnlyTicks(ops: seq<Op>, id: string) {
    AllLeaveAlone(ops, id) && forall k :: 0 <= k < |ops| ==> !Replaces(ops[k], id)
  }

  predicate HasQuota(t: Task) {
    t.mode == Once || (t.mode == FixedTimes && t.times > 0)
  }

  /** How often it is to run: once, or the given number of times. */
  function RunsOf(t: Task): int
    requires HasQuota(t)
  {
    if t.mode == Once then 1 else t.times
  }

  lemma StepUsesQuota(s: WheelState, op: Op, id: string, cfg: Config)
    requires cfg.Ok() && StateOk(s, cfg) && id in s.view && !s.view[id].paused && HasQuota(s.view[id].task)
    requires LeavesAlone(op, id) && !Replaces(op, id)
    ensures var e, v, c := s.view[id], Step(s, op, cfg).view, Completions(s, op, id, cfg);
            && (id in v <==> e.executed + c < RunsOf(e.task))
            && (id in v ==> v[id].task == e.task && !v[id].paused && v[id].executed == e.executed + c)
  {
    assert EntryOk(id, s.view[id], cfg);
    if op.Update? {
      UpdateKeepsIds(s, op.task, op.now, op.paused, op.restoreNow, op.restorePaused, cfg);
    }
  }

  lemma StaysAway(s: WheelState, op: Op, id: string, cfg: Config)
    requires cfg.Ok() && StateOk(s, cfg) && id !in s.view && !Replaces(op, id)
    ensures id !in Step(s, op, cfg).view && Completions(s, op, id, cfg) == 0
  {
    StepCounts(s, op, id, cfg);
  }

  /** Over every run of other operations and ticks, a Once or FixedTimes task is in the wheel exactly as
      long as it has completed fewer than its number of times. */
  lemma {:induction false} LeavesExactlyWhenUsedUp(s: WheelState, ops: seq<Op>, id: string, cfg: Config)
    requires cfg.Ok() && StateOk(s, cfg) && id in s.view && !s.view[id].paused && HasQuota(s.view[id].task) && OnlyTicks(ops, id)
    ensures var e, v, total := s.view[id], Run(s, ops, cfg).view, TotalCompletions(s, ops, id, cfg);
            && (id in v <==> e.executed + total < RunsOf(e.task))
            && (id !in v <==> e.executed + total == RunsOf(e.task))
            && (id in v ==> v[id].task == e.task && !v[id].paused && v[id].executed == e.executed + total)
  {
    assert EntryOk(id, s.view[id], cfg);
    if ops != [] {
      var n := |ops| - 1;
      var m := Run(s, ops[..n], cfg);
      LeavesExactlyWhenUsedUp(s, ops[..n], id, cfg);
      RunKeepsStateOk(s, ops[..n], cfg);
      hide StateOk, Step, Completions, LeavesAlone, Replaces, EntryOk;
      if id in m.view {
        StepUsesQuota(m, ops[n], id, cfg);
        assert Completions(m, ops[n], id, cfg) <= 1 by {
          AtMostOne(m, ops[n], id, cfg);
        }
      } else {
        StaysAway(m, ops[n], id, cfg);
      }
    }
  }

  lemma AtMostOne(s: WheelState, op: Op, id: string, cfg: Config)
    requires cfg.Ok()
    ensures Completions(s, op, id, cfg) <= 1
  {
  }

  /** Any unpaused task completes within a rotation of its due time. */
  lemma CompletesInTime(s: WheelState, ops: seq<Op>, id: string, t0: int, cfg: Config)
    requires cfg.Ok() && StateOk(s, cfg) && s.running && id in s.view && !s.view[id].paused
    requires AllLeaveAlone(ops, id) && NeverPanics(ops, id) && TicksEvery(ops, t0, cfg.interval)
    requires t0 - cfg.interval < s.view[id].runAt
    requires t0 + Ticks(ops) * cfg.interval >= s.view[id].runAt + Rotation(cfg)
    ensures TotalCompletions(s, ops, id, cfg) >= 1
  {
    assert EntryOk(id, s.view[id], cfg);
    hide StateOk, Run, AllLeaveAlone, NeverPanics, TicksEvery, TotalCompletions, Ticks;
    var j := FiresWithinRotation(s.view[id], s.cursor, t0, cfg);
    Sooner(j, Ticks(ops), cfg.interval);
    assert ops[..|ops|] == ops;
    hide Rotation, FirstFires;
    CompletesBefore(s, ops, |ops|, id, t0, j, cfg);
  }

  lemma Sooner(j: int, n: int, i: int)
    requires i > 0
    ensures j * i < n * i ==> j < n
  {
    if j >= n {
      Scale(n, j, i);
    }
  }

  // ---------- Adding, pausing, resuming ----------

  /** A task that was just due at `runAt` in state `s1`: its first completion in a run. */
  lemma FirstRunOf(s1: WheelState, ops: seq<Op>, id: string, now: int, t0: int, cfg: Config)
    requires cfg.Ok() && StateOk(s1, cfg) && s1.running && id in s1.view && !s1.view[id].paused
    requires s1.view[id].runAt == now + s1.view[id].task.interval && s1.view[id].task.interval > 0 && t0 <= now + cfg.interval
    requires AllLeaveAlone(ops, id) && NeverPanics(ops, id) && TicksEvery(ops, t0, cfg.interval) && ops != []
    requires TotalCompletions(s1, ops[..|ops| - 1], id, cfg) == 0
    requires Completions(Run(s1, ops[..|ops| - 1], cfg), ops[|ops| - 1], id, cfg) == 1
    ensures var d := s1.view[id].task.interval;
            d <= ops[|ops| - 1].now - now < d + Rotation(cfg)
  {
    assert EntryOk(id, s1.view[id], cfg);
    hide StateOk, Run, AllLeaveAlone, NeverPanics, TicksEvery, TotalCompletions;
    var j := FiresWithinRotation(s1.view[id], s1.cursor, t0, cfg);
    FirstCompletion(s1, ops, id, t0, j, cfg);
  }

  /** A new task enters with its definition, unless the node carried the flag unpaused, and due one interval
      after the call. */
  lemma AddEnters(s: WheelState, t: Task, now: int, paused: bool, cfg: Config)
    requires cfg.Ok() && s.running && t.id != "" && t.hasRun && t.interval > 0 && t.id !in s.view
    requires t.mode == Repeated || t.mode == Once || (t.mode == FixedTimes && t.times > 0)
    ensures var s' := Step(s, Op.Add(Some(t), now, paused), cfg);
            && s'.running && s'.cursor == s.cursor && s'.view.Keys == s.view.Keys + {t.id}
            && (forall id <- s.view :: s'.view[id] == s.view[id])
            && var e := s'.view[t.id];
               && e.task == t && e.addedAt == now && e.runAt == now + t.interval && e.executed == 0 && e.paused == paused
               && e.alert.state == Pending && e.alert.pendingSince.None? && e.alert.lastFiredAt.None?
  {
  }

  /** So its first completion comes at least one interval and less than an interval and a rotation after
      the call, if the ticks go on every interval. */
  lemma FirstRunAfterAdd(s: WheelState, t: Task, now: int, ops: seq<Op>, t0: int, cfg: Config)
    requires cfg.Ok() && StateOk(s, cfg) && s.running && t.id != "" && t.hasRun && t.interval > 0 && t.id !in s.view
    requires t.mode == Repeated || t.mode == Once || (t.mode == FixedTimes && t.times > 0)
    requires AllLeaveAlone(ops, t.id) && NeverPanics(ops, t.id) && TicksEvery(ops, t0, cfg.interval) && ops != [] && t0 <= now + cfg.interval
    requires var s1 := Step(s, Op.Add(Some(t), now, false), cfg);
             && TotalCompletions(s1, ops[..|ops| - 1], t.id, cfg) == 0
             && Completions(Run(s1, ops[..|ops| - 1], cfg), ops[|ops| - 1], t.id, cfg) == 1
    ensures t.interval <= ops[|ops| - 1].now - now < t.interval + Rotation(cfg)
  {
    AddEnters(s, t, now, false, cfg);
    StepKeepsStateOk(s, Op.Add(Some(t), now, false), cfg);
    hide StateOk, Step, Run, AllLeaveAlone, NeverPanics, TicksEvery, TotalCompletions, Completions, Rotation;
    FirstRunOf(Step(s, Op.Add(Some(t), now, false), cfg), ops, t.id, now, t0, cfg);
  }

  /** Pausing sets the flag of one task and nothing else. */
  lemma PauseMeans(s: WheelState, id: string, cfg: Config)
    requires cfg.Ok() && id != ""
    ensures var s' := Step(s, Op.Pause(id), cfg);
            && s'.running == s.running && s'.cursor == s.cursor && s'.view.Keys == s.view.Keys
            && (forall x <- s.view :: x != id ==> s'.view[x] == s.view[x])
            && (id in s.view ==> s'.view[id] == s.view[id].(paused := true))
  {
  }

  /** From then on it does not run. */
  lemma PausedTaskRests(s: WheelState, id: string, ops: seq<Op>, cfg: Config)
    requires cfg.Ok() && StateOk(s, cfg) && id != "" && id in s.view
    requires forall k :: 0 <= k < |ops| ==> Ignores(ops[k], id)
    ensures TotalCompletions(Step(s, Op.Pause(id), cfg), ops, id, cfg) == 0
  {
    PauseMeans(s, id, cfg);
    StepKeepsStateOk(s, Op.Pause(id), cfg);
    hide StateOk, Step;
    PausedNeverRuns(Step(s, Op.Pause(id), cfg), ops, id, cfg);
  }

  /** Resuming a paused task clears its flag and makes it due one interval after the call, in the slot it
      is in; resuming any other task changes nothing. */
  lemma ResumeMeans(s: WheelState, id: string, now: int, cfg: Config)
    requires cfg.Ok() && StateOk(s, cfg) && id != ""
    ensures var s' := Step(s, Op.Resume(id, now), cfg);
            if id in s.view && s.view[id].paused then
              && s'.running == s.running && s'.cursor == s.cursor && s'.view.Keys == s.view.Keys
              && (forall x <- s.view :: x != id ==> s'.view[x] == s.view[x])
              && s'.view[id] == s.view[id].(paused := false, runAt := now + s.view[id].task.interval)
            else s' == s
  {
    if id in s.view {
      assert EntryOk(id, s.view[id], cfg);
      NormalizeYieldsNormal(Some(s.view[id].task));
    }
  }

  /** So it completes again at least one interval and less than an interval and a rotation after the call. */
  lemma FirstRunAfterResume(s: WheelState, id: string, now: int, ops: seq<Op>, t0: int, cfg: Config)
    requires cfg.Ok() && StateOk(s, cfg) && s.running && id in s.view && s.view[id].paused
    requires AllLeaveAlone(ops, id) && NeverPanics(ops, id) && TicksEvery(ops, t0, cfg.interval) && ops != [] && t0 <= now + cfg.interval
    requires var s1 := Step(s, Op.Resume(id, now), cfg);
             && TotalCompletions(s1, ops[..|ops| - 1], id, cfg) == 0
             && Completions(Run(s1, ops[..|ops| - 1], cfg), ops[|ops| - 1], id, cfg) == 1
    ensures s.view[id].task.interval <= ops[|ops| - 1].now - now < s.view[id].task.interval + Rotation(cfg)
  {
    assert EntryOk(id, s.view[id], cfg);
    NormalizeYieldsNormal(Some(s.view[id].task));
    ResumeMeans(s, id, now, cfg);
    StepKeepsStateOk(s, Op.Resume(id, now), cfg);
    hide StateOk, Step, Run, AllLeaveAlone, NeverPanics, TicksEvery, TotalCompletions, Completions, Rotation;
    FirstRunOf(Step(s, Op.Resume(id, now), cfg), ops, id, now, t0, cfg);
  }
}
