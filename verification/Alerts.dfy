/** The alert state machine of one task. `Handle` is the step the wheel performs after each
    evaluation; the lemmas say what a whole history of evaluations leads to. */
module Alerts {
  import opened TaskModel

  datatype AlertState = Pending | Firing | Resolved

  /** The alert fields of a node; `None` is the zero time. */
  datatype AlertTrack = AlertTrack(state: AlertState, pendingSince: Option<int>, lastFiredAt: Option<int>)

  const FRESH_TRACK := AlertTrack(Pending, None, None)

  /** One record of the history manager. */
  datatype Notice = Notice(oldState: AlertState, newState: AlertState)

  /** The outcome of one evaluation: the new fields, the records written, the alerts counted. */
  datatype Handled = Handled(track: AlertTrack, notices: seq<Notice>, counted: nat)

  function Compute(a: AlertTrack, isFiring: bool, forDuration: int, now: int): AlertTrack {
    if isFiring then
      if a.state == Firing then a
      else if forDuration <= 0 then AlertTrack(Firing, None, Some(now))
      else if a.pendingSince.None? then a.(state := Pending, pendingSince := Some(now))
      else if now - a.pendingSince.value >= forDuration then AlertTrack(Firing, None, Some(now))
      else a.(state := Pending)
    else
      AlertTrack(if a.state == Firing then Resolved else Pending, None, a.lastFiredAt)
  }

  function Handle(a: AlertTrack, isFiring: bool, forDuration: int, repeatInterval: int, now: int): Handled {
    var b := Compute(a, isFiring, forDuration, now);
    if a.state != b.state then
      Handled(
        if b.state == Firing && repeatInterval > 0 then b.(lastFiredAt := Some(now)) else b,
        [Notice(a.state, b.state)],
        if b.state == Firing then 1 else 0)
    else if b.state == Firing && repeatInterval > 0
            && b.lastFiredAt.Some? && now - b.lastFiredAt.value >= repeatInterval then
      Handled(b.(lastFiredAt := Some(now)), [Notice(a.state, b.state)], 1)
    else
      Handled(b, [], 0)
  }

  // ---------- Histories ----------

  datatype Eval = Eval(at: int, firing: bool)

  predicate Nondecreasing(h: seq<Eval>) {
    forall i, j :: 0 <= i < j < |h| ==> h[i].at <= h[j].at
  }

  /** The fields after the evaluations of `h`, from a new node. */
  function After(h: seq<Eval>, f: int, r: int): AlertTrack
    decreases |h|, 1
  {
    if h == [] then FRESH_TRACK else LastStep(h, f, r).track
  }

  function LastStep(h: seq<Eval>, f: int, r: int): Handled
    requires h != []
    decreases |h|, 0
  {
    var n := |h| - 1;
    Handle(After(h[..n], f, r), h[n].firing, f, r, h[n].at)
  }

  /** Where the unbroken run of true results that ends `h` began. */
  function RunStart(h: seq<Eval>): (k: nat)
    requires h != [] && h[|h| - 1].firing
    ensures k < |h|
    ensures forall j :: k <= j < |h| ==> h[j].firing
    ensures k > 0 ==> !h[k - 1].firing
  {
    var n := |h| - 1;
    if n > 0 && h[n - 1].firing then RunStart(h[..n]) else n
  }

  /** The meaning of the three states, with no hidden fields: Firing when the current run of
      trues has reached the For duration, Resolved right after Firing, Pending otherwise. */
  ghost function Declared(h: seq<Eval>, f: int): AlertState {
    if h == [] then Pending
    else
      var n := |h| - 1;
      if h[n].firing then
        if exists j :: RunStart(h) <= j < |h| && h[j].at - h[RunStart(h)].at >= f then Firing else Pending
      else if Declared(h[..n], f) == Firing then Resolved
      else Pending
  }

  /** The machine computes the declared state of every history, whatever the clock does. */
  lemma {:induction false} MachineMeetsDeclaration(h: seq<Eval>, f: int, r: int)
    ensures After(h, f, r).state == Declared(h, f)
    ensures After(h, f, r).pendingSince ==
            if h != [] && h[|h| - 1].firing && Declared(h, f) == Pending then Some(h[RunStart(h)].at) else None
    ensures After(h, f, r).state == Firing ==> After(h, f, r).lastFiredAt.Some?
  {
    if h != [] {
      var n := |h| - 1;
      var p := h[..n];
      MachineMeetsDeclaration(p, f, r);
      if h[n].firing {
        var k := RunStart(h);
        if n > 0 && p[n - 1].firing {
          assert k == RunStart(p);
          assert forall j :: k <= j < n ==> h[j] == p[j];
          if exists j :: k <= j < |p| && p[j].at - p[k].at >= f {
            var j :| k <= j < |p| && p[j].at - p[k].at >= f;
            assert h[j].at - h[k].at >= f;
          }
        } else {
          assert k == n;
          assert p != [] ==> !p[|p| - 1].firing && Declared(p, f) != Firing;
        }
      }
    }
  }

  /** With a clock that never goes back only the length of the run matters. */
  lemma FiringMeansRunReachedFor(h: seq<Eval>, f: int, r: int)
    requires Nondecreasing(h)
    ensures After(h, f, r).state == Firing <==>
            h != [] && h[|h| - 1].firing && h[|h| - 1].at - h[RunStart(h)].at >= f
    ensures After(h, f, r).state == Resolved <==>
            h != [] && !h[|h| - 1].firing && After(h[..|h| - 1], f, r).state == Firing
  {
    MachineMeetsDeclaration(h, f, r);
    if h != [] {
      MachineMeetsDeclaration(h[..|h| - 1], f, r);
    }
  }

  /** Without that clock the length of the run does not decide: once reached, Firing is kept. */
  lemma BackwardClockKeepsFiring()
    ensures var h := [Eval(0, true), Eval(10, true), Eval(5, true)];
            After(h, 10, 0).state == Firing && h[2].at - h[RunStart(h)].at < 10
  {
    var h := [Eval(0, true), Eval(10, true), Eval(5, true)];
    assert h[..2] == [Eval(0, true), Eval(10, true)] && h[..2][..1] == [Eval(0, true)];
    assert RunStart(h) == RunStart(h[..2]) == RunStart(h[..2][..1]) == 0;
    MachineMeetsDeclaration(h, 10, 0);
    assert h[1].at - h[0].at >= 10;
  }

  // ---------- Notifications ----------

  /** Where the Firing episode that ends `h` began. */
  function EpisodeStart(h: seq<Eval>, f: int, r: int): (k: nat)
    requires After(h, f, r).state == Firing
    ensures k < |h|
  {
    var n := |h| - 1;
    if After(h[..n], f, r).state == Firing then EpisodeStart(h[..n], f, r) else n
  }

  /** The alerts counted in the Firing episode that ends `h`. */
  function EpisodeCount(h: seq<Eval>, f: int, r: int): nat
    requires After(h, f, r).state == Firing
  {
    var n := |h| - 1;
    LastStep(h, f, r).counted + if After(h[..n], f, r).state == Firing then EpisodeCount(h[..n], f, r) else 0
  }

  /** Notifications of one episode are at least the repeat interval apart, and none is missed:
      less than the interval has passed since the last one. */
  lemma {:induction false} EpisodeSpacing(h: seq<Eval>, f: int, r: int)
    requires Nondecreasing(h) && After(h, f, r).state == Firing
    ensures After(h, f, r).lastFiredAt.Some?
    ensures var l := After(h, f, r).lastFiredAt.value;
            h[EpisodeStart(h, f, r)].at <= l <= h[|h| - 1].at && (r > 0 ==> h[|h| - 1].at - l < r)
    // a repeated notification comes at least r after the previous one
    ensures After(h[..|h| - 1], f, r).state == Firing && LastStep(h, f, r).counted == 1 ==>
              r > 0 && After(h[..|h| - 1], f, r).lastFiredAt.Some? &&
              h[|h| - 1].at - After(h[..|h| - 1], f, r).lastFiredAt.value >= r
  {
    var n := |h| - 1;
    var p := h[..n];
    if After(p, f, r).state == Firing {
      EpisodeSpacing(p, f, r);
      assert p[|p| - 1].at <= h[n].at;
    }
  }

  /** When the last alert of the whole history was counted, in any episode. */
  function LastAlert(h: seq<Eval>, f: int, r: int): Option<int> {
    if h == [] then None
    else if LastStep(h, f, r).counted == 1 then Some(h[|h| - 1].at)
    else LastAlert(h[..|h| - 1], f, r)
  }

  /** The field lastFiredAt is exactly that, whatever the clock does. */
  lemma {:induction false} LastFiredIsLastAlert(h: seq<Eval>, f: int, r: int)
    ensures After(h, f, r).lastFiredAt == LastAlert(h, f, r)
    ensures h != [] ==> LastStep(h, f, r).counted <= 1
  {
    if h != [] {
      LastFiredIsLastAlert(h[..|h| - 1], f, r);
    }
  }

  /** Each counted alert but the first took up at least r of the episode. */
  lemma {:induction false} EpisodeBudget(h: seq<Eval>, f: int, r: int)
    requires Nondecreasing(h) && After(h, f, r).state == Firing
    ensures if r <= 0 then EpisodeCount(h, f, r) == 1 else 1 <= EpisodeCount(h, f, r)
    ensures After(h, f, r).lastFiredAt.Some?
    ensures r > 0 ==> (EpisodeCount(h, f, r) - 1) * r <=
                      After(h, f, r).lastFiredAt.value - h[EpisodeStart(h, f, r)].at
  {
    var p := h[..|h| - 1];
    EpisodeSpacing(h, f, r);
    if After(p, f, r).state == Firing {
      EpisodeBudget(p, f, r);
      var c := EpisodeCount(p, f, r);
      assert (c + 1 - 1) * r == (c - 1) * r + r;
    }
  }

  /** So an episode of length D counts n alerts with (n - 1) * r <= D, and exactly one when r <= 0. */
  lemma EpisodeNotifications(h: seq<Eval>, f: int, r: int)
    requires Nondecreasing(h) && After(h, f, r).state == Firing
    ensures var d := h[|h| - 1].at - h[EpisodeStart(h, f, r)].at;
            if r <= 0 then EpisodeCount(h, f, r) == 1
            else 1 <= EpisodeCount(h, f, r) && (EpisodeCount(h, f, r) - 1) * r <= d
  {
    EpisodeBudget(h, f, r);
    EpisodeSpacing(h, f, r);
  }

  // ---------- The history log ----------

  function Log(h: seq<Eval>, f: int, r: int): seq<Notice> {
    if h == [] then [] else Log(h[..|h| - 1], f, r) + LastStep(h, f, r).notices
  }

  function TotalCounted(h: seq<Eval>, f: int, r: int): nat {
    if h == [] then 0 else TotalCounted(h[..|h| - 1], f, r) + LastStep(h, f, r).counted
  }

  /** Replays a log from `s`; `None` when a record does not start where the previous one ended. */
  function Replay(s: AlertState, log: seq<Notice>): Option<AlertState> {
    if log == [] then Some(s)
    else
      match Replay(s, log[..|log| - 1])
      case None => None
      case Some(m) => if log[|log| - 1].oldState == m then Some(log[|log| - 1].newState) else None
  }

  function FiringRecords(log: seq<Notice>): nat {
    if log == [] then 0
    else FiringRecords(log[..|log| - 1]) + if log[|log| - 1].newState == Firing then 1 else 0
  }

  /** The records form a chain that replays to the current state, and the alert counter is the
      number of records that end in Firing. */
  lemma {:induction false} LogReplaysToState(h: seq<Eval>, f: int, r: int)
    ensures Replay(Pending, Log(h, f, r)) == Some(After(h, f, r).state)
    ensures FiringRecords(Log(h, f, r)) == TotalCounted(h, f, r)
  {
    if h != [] {
      LogReplaysToState(h[..|h| - 1], f, r);
      var log, more := Log(h[..|h| - 1], f, r), LastStep(h, f, r).notices;
      if more == [] {
        assert log + more == log;
      } else {
        assert |more| == 1 && (log + more)[..|log|] == log;
      }
    }
  }

  /** Which transitions a log can contain. A repeated record exists only for Firing, and a task
      goes from Resolved straight to Firing only without a For duration. */
  lemma {:induction false} LogTransitions(h: seq<Eval>, f: int, r: int, i: nat)
    requires i < |Log(h, f, r)|
    ensures var n := Log(h, f, r)[i];
            match (n.oldState, n.newState)
            case (Pending, Firing) => true
            case (Firing, Resolved) => true
            case (Resolved, Pending) => true
            case (Resolved, Firing) => f <= 0
            case (Firing, Firing) => r > 0
            case _ => false
  {
    var p := h[..|h| - 1];
    if i < |Log(p, f, r)| {
      LogTransitions(p, f, r, i);
    } else {
      MachineMeetsDeclaration(p, f, r);
      assert Log(h, f, r)[i] == LastStep(h, f, r).notices[0];
      if After(p, f, r).state == Resolved {
        assert After(p, f, r).pendingSince.None?;
      }
    }
  }
}
