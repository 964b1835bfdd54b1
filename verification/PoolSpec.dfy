/** Where a stale paused flag comes from: the free pool of a timing wheel next to its entries. */
module PoolSpec {
  import opened TaskModel
  import opened WheelSpec

  /** A wheel and the paused flags of the nodes in its pool. */
  datatype Pooled = Pooled(state: WheelState, flags: set<bool>)

  /** UpdateTask passes its checks and removes the old entry. */
  predicate Reaches(s: WheelState, task: Option<Task>) {
    task.Some? && task.value.id != "" && task.value.hasRun && s.running && task.value.id in s.view
  }

  /** The flags of the nodes that an operation hands back to the pool. A tick hands back only nodes of
      tasks that ran, so unpaused ones. */
  function Released(s: WheelState, op: Op): set<bool> {
    match op
    case Remove(id) => if LookupResult(s, id).Ok? then {s.view[id].paused} else {}
    case Update(t, _, _, _, _) => if Reaches(s, t) then {s.view[t.value.id].paused} else {}
    case Clear => set id | id in s.view :: s.view[id].paused
    case _ => {}
  }

  /** A node for a new entry comes from the pool or is new, and a new one is not paused. */
  predicate MayCarry(flags: set<bool>, paused: bool) {
    paused ==> true in flags
  }

  predicate Allowed(p: Pooled, op: Op) {
    match op
    case Add(t, _, paused) => AddResult(p.state, t).Ok? ==> MayCarry(p.flags, paused)
    case Update(t, _, paused, _, restorePaused) =>
      Reaches(p.state, t) ==>
        && (UpdateResult(p.state, t).Ok? ==> MayCarry(p.flags + Released(p.state, op), paused))
        && (UpdateResult(p.state, t).Err? ==> MayCarry(p.flags + Released(p.state, op), restorePaused))
    case _ => true
  }

  /** What one operation does to a wheel and its pool. */
  predicate PoolStep(p: Pooled, op: Op, p': Pooled, cfg: Config)
    requires cfg.Ok()
  {
    && p'.state == Step(p.state, op, cfg)
    && Allowed(p, op)
    && p'.flags <= p.flags + Released(p.state, op) + {false}
    && (op.Remove? || op.Clear? ==> p'.flags == p.flags + Released(p.state, op))
  }

  /** The flags settle whether a step of the entries is a step of wheel and pool. */
  lemma FlagsSettleStep(p: Pooled, op: Op, p': Pooled, cfg: Config)
    requires cfg.Ok() && p'.state == Step(p.state, op, cfg)
    requires op.Start? || op.Stop? || op.Pause? || op.Resume? || op.Remove? || op.Clear? || op.Tick?
    requires p'.flags == p.flags + Released(p.state, op) || (op.Tick? && p'.flags <= p.flags + {false})
    ensures PoolStep(p, op, p', cfg)
  {
    hide Step;
  }

  lemma UpdateSettlesStep(p: Pooled, op: Op, p': Pooled, cfg: Config)
    requires cfg.Ok() && op.Update? && p'.state == Step(p.state, op, cfg)
    requires if Reaches(p.state, op.task)
             then
               var flags := p.flags + {p.state.view[op.task.value.id].paused};
               && p'.flags <= flags + {false}
               && (UpdateResult(p.state, op.task).Ok? ==> MayCarry(flags, op.paused))
               && (UpdateResult(p.state, op.task).Err? ==> MayCarry(flags, op.restorePaused))
             else p'.flags == p.flags
    ensures PoolStep(p, op, p', cfg)
  {
    hide Step;
  }

  predicate ReleasesPaused(s: WheelState, op: Op) {
    true in Released(s, op)
  }

  /** The id under which an operation enters a new entry. */
  function Entered(s: WheelState, op: Op): Option<string> {
    match op
    case Add(t, _, _) => if AddResult(s, t).Ok? then Some(t.value.id) else None
    case Update(t, _, _, _, _) => if Reaches(s, t) then Some(t.value.id) else None
    case _ => None
  }

  /** An operation enters an id exactly when that id appears or its old definition is taken out first. */
  lemma EnteredMeans(s: WheelState, op: Op, id: string, cfg: Config)
    requires cfg.Ok() && StateOk(s, cfg)
    ensures Entered(s, op) == Some(id) <==>
              || (id !in s.view && id in Step(s, op, cfg).view)
              || (op.Update? && s.running && op.task.Some? && op.task.value.hasRun && op.task.value.id == id != "" && id in s.view)
  {
    match op
    case Add(t, now, paused) =>
      if Normalize(t).Ok? {
        NormalizeYieldsNormal(t);
      }
    case Update(t, now, paused, rn, rp) =>
      UpdateKeepsIds(s, t, now, paused, rn, rp, cfg);
    case _ =>
  }

  /** `ps` is a run of `ops` over wheel and pool. */
  ghost predicate IsPoolRun(ps: seq<Pooled>, ops: seq<Op>, cfg: Config)
    requires cfg.Ok()
  {
    |ps| == |ops| + 1 && forall k :: 0 <= k < |ops| ==> PoolStep(ps[k], ops[k], ps[k + 1], cfg)
  }

  lemma EnteredFlag(p: Pooled, op: Op, p': Pooled, cfg: Config)
    requires cfg.Ok() && StateOk(p.state, cfg) && PoolStep(p, op, p', cfg) && Entered(p.state, op).Some?
    ensures var id := Entered(p.state, op).value;
            && id in p'.state.view
            && (p'.state.view[id].paused ==> true in p.flags + Released(p.state, op))
  {
    match op
    case Add(t, now, paused) => NormalizeYieldsNormal(t);
    case Update(t, now, paused, rn, rp) =>
      UpdateKeepsIds(p.state, t, now, paused, rn, rp, cfg);
      assert EntryOk(t.value.id, p.state.view[t.value.id], cfg);
    case _ =>
  }

  ghost predicate NeverReleasesPaused(ps: seq<Pooled>, ops: seq<Op>)
    requires |ops| < |ps|
  {
    forall k :: 0 <= k < |ops| ==> !ReleasesPaused(ps[k].state, ops[k])
  }

  lemma PrefixRun(ps: seq<Pooled>, ops: seq<Op>, n: nat, cfg: Config)
    requires cfg.Ok() && n <= |ops| && IsPoolRun(ps, ops, cfg) && NeverReleasesPaused(ps, ops)
    ensures IsPoolRun(ps[..n + 1], ops[..n], cfg) && NeverReleasesPaused(ps[..n + 1], ops[..n])
    ensures n < |ops| ==> PoolStep(ps[n], ops[n], ps[n + 1], cfg) && !ReleasesPaused(ps[n].state, ops[n])
  {
    hide PoolStep, ReleasesPaused;
    forall k | 0 <= k < n
      ensures PoolStep(ps[..n + 1][k], ops[..n][k], ps[..n + 1][k + 1], cfg) && !ReleasesPaused(ps[..n + 1][k].state, ops[..n][k])
    {
      assert PoolStep(ps[k], ops[k], ps[k + 1], cfg);
    }
    assert n < |ops| ==> PoolStep(ps[n], ops[n], ps[n + 1], cfg);
  }

  /** The entry that an operation enters is not paused. */
  predicate EntersUnpaused(p: Pooled, op: Op, p': Pooled) {
    var id := Entered(p.state, op);
    id.Some? ==> id.value in p'.state.view && !p'.state.view[id.value].paused
  }

  lemma {:induction false} PoolStaysClean(ps: seq<Pooled>, ops: seq<Op>, cfg: Config)
    requires cfg.Ok() && IsPoolRun(ps, ops, cfg) && StateOk(ps[0].state, cfg) && ps[0].flags <= {false}
    requires NeverReleasesPaused(ps, ops)
    ensures ps[|ops|].flags <= {false} && StateOk(ps[|ops|].state, cfg)
  {
    if ops != [] {
      hide PoolStep, EntersUnpaused, StateOk, ReleasesPaused, NeverReleasesPaused;
      var n := |ops| - 1;
      PrefixRun(ps, ops, n, cfg);
      PoolStaysClean(ps[..n + 1], ops[..n], cfg);
      assert ps[..n + 1][n] == ps[n];
      CleanStep(ps[n], ops[n], ps[n + 1], cfg);
    }
  }

  /** New tasks start unpaused over every run in which no paused entry is removed, updated or cleared. */
  lemma NothingStaleEnters(ps: seq<Pooled>, ops: seq<Op>, k: nat, cfg: Config)
    requires cfg.Ok() && IsPoolRun(ps, ops, cfg) && StateOk(ps[0].state, cfg) && ps[0].flags <= {false}
    requires NeverReleasesPaused(ps, ops) && k < |ops|
    ensures ps[k].flags <= {false} && StateOk(ps[k].state, cfg)
    ensures var op, v := ops[k], ps[k + 1].state.view;
            && (op.Add? && op.task.Some? && AddResult(ps[k].state, op.task).Ok? ==>
                  op.task.value.id in v && !v[op.task.value.id].paused)
            && (op.Update? && op.task.Some? && op.task.value.id != "" && op.task.value.hasRun && ps[k].state.running
                && op.task.value.id in ps[k].state.view ==>
                  op.task.value.id in v && !v[op.task.value.id].paused)
  {
    hide StateOk, ReleasesPaused, NeverReleasesPaused;
    CleanRun(ps, ops, k, cfg);
    hide PoolStep, IsPoolRun;
  }

  lemma CleanRun(ps: seq<Pooled>, ops: seq<Op>, k: nat, cfg: Config)
    requires cfg.Ok() && IsPoolRun(ps, ops, cfg) && StateOk(ps[0].state, cfg) && ps[0].flags <= {false}
    requires NeverReleasesPaused(ps, ops) && k < |ops|
    ensures ps[k].flags <= {false} && StateOk(ps[k].state, cfg) && EntersUnpaused(ps[k], ops[k], ps[k + 1])
  {
    hide PoolStep, EntersUnpaused, StateOk, ReleasesPaused, NeverReleasesPaused;
    PrefixRun(ps, ops, k, cfg);
    PoolStaysClean(ps[..k + 1], ops[..k], cfg);
    assert ps[..k + 1][k] == ps[k];
    CleanStep(ps[k], ops[k], ps[k + 1], cfg);
  }

  lemma CleanStep(p: Pooled, op: Op, p': Pooled, cfg: Config)
    requires cfg.Ok() && PoolStep(p, op, p', cfg) && StateOk(p.state, cfg)
    requires p.flags <= {false} && !ReleasesPaused(p.state, op)
    ensures p'.flags <= {false} && StateOk(p'.state, cfg)
    ensures EntersUnpaused(p, op, p')
  {
    StepKeepsStateOk(p.state, op, cfg);
    if Entered(p.state, op).Some? {
      EnteredFlag(p, op, p', cfg);
    }
    hide StateOk, Step;
  }

  /** The task `id` was paused by PauseTask, and neither resumed nor entered anew since. */
  ghost predicate PausedByCall(ps: seq<Pooled>, ops: seq<Op>, id: string)
    requires |ops| < |ps|
  {
    exists k :: 0 <= k < |ops| && ops[k] == Op.Pause(id) &&
      forall j :: k < j < |ops| ==> !(ops[j].Resume? && ops[j].id == id) && Entered(ps[j].state, ops[j]) != Some(id)
  }

  lemma FlagChanges(p: Pooled, op: Op, p': Pooled, id: string, cfg: Config)
    requires cfg.Ok() && PoolStep(p, op, p', cfg) && StateOk(p.state, cfg) && p.flags <= {false} && !ReleasesPaused(p.state, op)
    requires id in p'.state.view && p'.state.view[id].paused
    ensures op == Op.Pause(id) ||
            (id in p.state.view && p.state.view[id].paused && !(op.Resume? && op.id == id) && Entered(p.state, op) != Some(id))
  {
    CleanStep(p, op, p', cfg);
    if op.Update? {
      UpdateKeepsIds(p.state, op.task, op.now, op.paused, op.restoreNow, op.restorePaused, cfg);
    }
    hide StateOk;
  }

  lemma PausedByCallStays(ps: seq<Pooled>, ops: seq<Op>, n: nat, id: string)
    requires n + 1 == |ops| < |ps| && PausedByCall(ps[..n + 1], ops[..n], id)
    requires !(ops[n].Resume? && ops[n].id == id) && Entered(ps[n].state, ops[n]) != Some(id)
    ensures PausedByCall(ps, ops, id)
  {
    hide Entered;
    var k :| 0 <= k < n && ops[..n][k] == Op.Pause(id) &&
      forall j :: k < j < n ==> !(ops[..n][j].Resume? && ops[..n][j].id == id) && Entered(ps[..n + 1][j].state, ops[..n][j]) != Some(id);
    assert ops[k] == Op.Pause(id);
    forall j | k < j < |ops| ensures !(ops[j].Resume? && ops[j].id == id) && Entered(ps[j].state, ops[j]) != Some(id) {
      if j < n {
        assert ops[j] == ops[..n][j] && ps[j] == ps[..n + 1][j];
      }
    }
  }

  /** In such runs a task is paused only because PauseTask was called for it. */
  lemma {:induction false} PausedOnlyByPause(ps: seq<Pooled>, ops: seq<Op>, id: string, cfg: Config)
    requires cfg.Ok() && IsPoolRun(ps, ops, cfg) && StateOk(ps[0].state, cfg) && ps[0].flags <= {false}
    requires NeverReleasesPaused(ps, ops)
    requires id in ps[0].state.view ==> !ps[0].state.view[id].paused
    ensures var v := ps[|ops|].state.view; id in v && v[id].paused ==> PausedByCall(ps, ops, id)
  {
    var v := ps[|ops|].state.view;
    if ops != [] && id in v && v[id].paused {
      hide Entered, StateOk, PoolStep, ReleasesPaused, PausedByCall, EntersUnpaused;
      var n := |ops| - 1;
      PrefixRun(ps, ops, n, cfg);
      CleanRun(ps, ops, n, cfg);
      hide NeverReleasesPaused;
      PausedOnlyByPause(ps[..n + 1], ops[..n], id, cfg);
      assert ps[..n + 1][n] == ps[n];
      FlagChanges(ps[n], ops[n], ps[n + 1], id, cfg);
      if ops[n] == Op.Pause(id) {
        PausedNow(ps, ops, n, id);
      } else {
        PausedByCallStays(ps, ops, n, id);
      }
    }
  }

  lemma PausedNow(ps: seq<Pooled>, ops: seq<Op>, n: nat, id: string)
    requires n + 1 == |ops| < |ps| && ops[n] == Op.Pause(id)
    ensures PausedByCall(ps, ops, id)
  {
  }

  /** The condition is exact: once a paused entry was removed or cleared, any new task can start paused. */
  lemma StaleNodeCanEnter(p: Pooled, op: Op, p': Pooled, b: Task, now: int, cfg: Config) returns (q: Pooled)
    requires cfg.Ok() && PoolStep(p, op, p', cfg) && (op.Remove? || op.Clear?) && ReleasesPaused(p.state, op)
    requires p.state.running && IsNormal(b) && b.id !in p'.state.view
    ensures PoolStep(p', Op.Add(Some(b), now, true), q, cfg)
    ensures b.id in q.state.view && q.state.view[b.id].paused
  {
    NormalizeYieldsNormal(Some(b));
    q := Pooled(Step(p'.state, Op.Add(Some(b), now, true), cfg), p'.flags);
  }

  /** An Update of a paused entry can give it the flag of its own old node. */
  lemma UpdateCanStayPaused(p: Pooled, t: Task, now: int, restoreNow: int, cfg: Config) returns (q: Pooled)
    requires cfg.Ok() && StateOk(p.state, cfg) && IsNormal(t) && Reaches(p.state, Some(t)) && p.state.view[t.id].paused
    ensures PoolStep(p, Op.Update(Some(t), now, true, restoreNow, true), q, cfg)
    ensures t.id in q.state.view && q.state.view[t.id].paused && q.state.view[t.id].task == t
  {
    NormalizeYieldsNormal(Some(t));
    q := Pooled(Step(p.state, Op.Update(Some(t), now, true, restoreNow, true), cfg), p.flags);
  }
}
