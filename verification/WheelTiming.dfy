/** When a task runs: a tick comes every `interval`, the wheel has no round counter, and only the
    `runAt` check keeps a visited task from running early. */
module WheelTiming {
  import opened TaskModel
  import opened WheelSpec

  // ---------- Arithmetic ----------

  /** A period of `n` ticks in nanoseconds. */
  function Rotation(cfg: Config): int {
    cfg.slotNum * cfg.interval
  }

  lemma Scale(a: int, b: int, x: int)
    requires a <= b && x >= 0
    ensures a * x <= b * x
  {
  }

  /** Two numbers with the same remainder differ by a multiple. */
  lemma SameRemainder(a: int, b: int, n: int) returns (q: int)
    requires n > 0 && a % n == b % n
    ensures a == b + q * n
  {
    q := a / n - b / n;
    assert a == a / n * n + a % n && b == b / n * n + b % n;
    assert (a / n - b / n) * n == a / n * n - b / n * n;
  }

  lemma AddMultiple(a: int, q: int, n: int)
    requires n > 0
    ensures (a + q * n) % n == a % n
    decreases if q < 0 then -q else q
  {
    if q > 0 {
      AddMultiple(a, q - 1, n);
      assert a + q * n == a + (q - 1) * n + n;
      AddOne(a + (q - 1) * n, n);
    } else if q < 0 {
      AddMultiple(a, q + 1, n);
      assert a + (q + 1) * n == a + q * n + n;
      AddOne(a + q * n, n);
    }
  }

  lemma AddOne(a: int, n: int)
    requires n > 0
    ensures (a + n) % n == a % n
    ensures (a + n) / n == a / n + 1
  {
    var r, q := a % n, a / n;
    assert a == q * n + r;
    UniqueQuotient(a + n, q + 1, r, n);
  }

  lemma UniqueQuotient(a: int, q: int, r: int, n: int)
    requires n > 0 && 0 <= r < n && a == q * n + r
    ensures a / n == q && a % n == r
  {
    var q', r' := a / n, a % n;
    assert a == q' * n + r';
    assert (q - q') * n == r' - r by {
      assert (q - q') * n == q * n - q' * n;
    }
    if q - q' >= 1 {
      Scale(1, q - q', n);
    } else if q - q' <= -1 {
      Scale(q - q', -1, n);
    }
  }

  // ---------- First visit ----------

  /** The tick with number `k` visits the entry's slot at or after `runAt`. Ticks are numbered
      from 0, tick 0 comes at `t0` and finds the slot counter at `cursor`. */
  predicate Fires(e: Entry, cursor: int, t0: int, k: nat, cfg: Config)
    requires cfg.Ok()
  {
    (cursor + 1 + k) % cfg.slotNum == e.slotIndex && e.runAt <= t0 + k * cfg.interval
  }

  ghost predicate FirstFires(e: Entry, cursor: int, t0: int, j: nat, cfg: Config)
    requires cfg.Ok()
  {
    Fires(e, cursor, t0, j, cfg) && forall k: nat :: k < j ==> !Fires(e, cursor, t0, k, cfg)
  }

  lemma FirstFiresIsUnique(e: Entry, cursor: int, t0: int, i: nat, j: nat, cfg: Config)
    requires cfg.Ok() && FirstFires(e, cursor, t0, i, cfg) && FirstFires(e, cursor, t0, j, cfg)
    ensures i == j
  {
  }

  lemma {:induction false} LeastFires(e: Entry, cursor: int, t0: int, k: nat, cfg: Config) returns (j: nat)
    requires cfg.Ok() && Fires(e, cursor, t0, k, cfg)
    ensures j <= k && FirstFires(e, cursor, t0, j, cfg)
  {
    j := 0;
    while !Fires(e, cursor, t0, j, cfg)
      invariant j <= k && forall i: nat :: i < j ==> !Fires(e, cursor, t0, i, cfg)
      decreases k - j
    {
      j := j + 1;
    }
  }

  /** The first tick at or after a moment that is later than one tick before tick 0. */
  lemma TickAtOrAfter(r: int, t0: int, i: int) returns (c: nat)
    requires i > 0 && t0 - i < r
    ensures 0 <= t0 + c * i - r < i
  {
    if r <= t0 {
      c := 0;
    } else {
      var d := r - t0 - 1;
      c := d / i + 1;
      assert d == d / i * i + d % i;
      assert (d / i + 1) * i == d / i * i + i;
    }
  }

  lemma Negated(q: int, n: int)
    ensures (-q) * n == -(q * n)
  {
  }

  /** Any `n` successive ticks visit every slot. */
  lemma VisitAmongNext(slot: int, from: int, n: int) returns (off: nat)
    requires 0 <= slot < n
    ensures off < n && (from + off) % n == slot
  {
    off := (slot - from) % n;
    var q := (slot - from) / n;
    Negated(q, n);
    UniqueQuotient(from + off, -q, slot, n);
  }

  /** Every entry fires: never early, and less than one rotation late. The entry was not already
      overdue one tick before tick 0. */
  lemma FiresWithinRotation(e: Entry, cursor: int, t0: int, cfg: Config) returns (j: nat)
    requires cfg.Ok() && 0 <= e.slotIndex < cfg.slotNum && t0 - cfg.interval < e.runAt
    ensures FirstFires(e, cursor, t0, j, cfg)
    ensures 0 <= t0 + j * cfg.interval - e.runAt < Rotation(cfg)
  {
    var n, i := cfg.slotNum, cfg.interval;
    var c := TickAtOrAfter(e.runAt, t0, i);
    var off := VisitAmongNext(e.slotIndex, cursor + 1 + c, n);
    var k := c + off;
    assert k * i == c * i + off * i;
    Scale(0, off, i);
    Scale(off, n - 1, i);
    assert (n - 1) * i == n * i - i;
    j := LeastFires(e, cursor, t0, k, cfg);
    Scale(j, k, i);
  }

  // ---------- Exact lateness ----------

  /** The entry sits in the slot of its due time. */
  predicate PlacedAtDueTime(e: Entry, cfg: Config)
    requires cfg.Ok()
  {
    e.slotIndex == e.runAt / cfg.interval % cfg.slotNum
  }

  /** Tick 0 at `t0` visits the slot of the time `t0`. */
  predicate Aligned(cursor: int, t0: int, cfg: Config)
    requires cfg.Ok()
  {
    (cursor + 1) % cfg.slotNum == t0 / cfg.interval % cfg.slotNum
  }

  predicate WholeMillis(d: int) {
    d % NS_PER_MS == 0
  }

  lemma NestedDivision(x: int, m: int)
    requires m > 0
    ensures x / NS_PER_MS / m == x / (m * NS_PER_MS)
  {
    var a := x / NS_PER_MS;
    var b := a / m;
    assert x == a * NS_PER_MS + x % NS_PER_MS;
    assert a == b * m + a % m;
    assert x == b * (m * NS_PER_MS) + (a % m * NS_PER_MS + x % NS_PER_MS) by {
      assert (b * m + a % m) * NS_PER_MS == b * (m * NS_PER_MS) + a % m * NS_PER_MS;
    }
    Scale(a % m, m - 1, NS_PER_MS);
    assert (m - 1) * NS_PER_MS == m * NS_PER_MS - NS_PER_MS;
    UniqueQuotient(x, b, a % m * NS_PER_MS + x % NS_PER_MS, m * NS_PER_MS);
  }

  /** With whole-millisecond intervals the slot AddTask and rescheduleTask compute is the slot of
      the due time. */
  lemma SlotForIsDueSlot(now: int, delay: int, cfg: Config)
    requires cfg.Ok() && WholeMillis(cfg.interval) && WholeMillis(delay)
    ensures SlotFor(now, delay, cfg) == (now + delay) / cfg.interval % cfg.slotNum
  {
    var m := Millis(cfg.interval);
    assert cfg.interval == m * NS_PER_MS && m > 0;
    assert Millis(now) + Millis(delay) == Millis(now + delay);
    NestedDivision(now + delay, m);
  }

  lemma NewEntryIsPlaced(t: Task, now: int, paused: bool, cfg: Config)
    requires cfg.Ok() && WholeMillis(cfg.interval) && WholeMillis(t.interval)
    ensures PlacedAtDueTime(NewEntry(t, now, cfg, paused), cfg)
  {
    SlotForIsDueSlot(now, t.interval, cfg);
  }

  lemma RescheduledEntryIsPlaced(e: Entry, r: AlarmResult, now: int, cfg: Config)
    requires cfg.Ok() && WholeMillis(cfg.interval) && WholeMillis(e.task.interval)
    requires Execute(e, Returned(r), now, cfg).Some?
    ensures PlacedAtDueTime(Execute(e, Returned(r), now, cfg).value, cfg)
    ensures Execute(e, Returned(r), now, cfg).value.runAt == now + e.task.interval
  {
    SlotForIsDueSlot(now, e.task.interval, cfg);
  }

  /** Start aligns the counter: the first tick comes one interval after it. */
  lemma StartAligns(s: WheelState, now: int, cfg: Config)
    requires cfg.Ok() && WholeMillis(cfg.interval) && !s.running
    ensures Aligned(StartStep(s, now, cfg).cursor, now + cfg.interval, cfg)
  {
    var m := Millis(cfg.interval);
    assert cfg.interval == m * NS_PER_MS && m > 0;
    NestedDivision(now, m);
    AddOne(now, cfg.interval);
    var a := now / cfg.interval;
    var q := a / cfg.slotNum;
    assert a == q * cfg.slotNum + a % cfg.slotNum;
    AddMultiple(a % cfg.slotNum + 1, q, cfg.slotNum);
  }

  /** Stop makes a new context for the next start, so a wheel that is stopped and started again has its
      tasks, runs, and is aligned with the clock. */
  lemma RestartResumes(s: WheelState, now: int, cfg: Config)
    requires cfg.Ok() && WholeMillis(cfg.interval) && s.running
    ensures var s' := Step(Step(s, Stop, cfg), Start(now), cfg);
            s'.running && s'.view == s.view && Aligned(s'.cursor, now + cfg.interval, cfg)
  {
    StartAligns(Step(s, Stop, cfg), now, cfg);
    hide Aligned;
  }

  /** In an aligned wheel tick k comes at quotient m = t0/I + k, phase p; a placed entry with due
      quotient b and remainder r fires there exactly when m is b modulo n and not before it is due. */
  lemma FiresInQuotients(e: Entry, cursor: int, t0: int, k: nat, cfg: Config)
    requires cfg.Ok() && Aligned(cursor, t0, cfg) && PlacedAtDueTime(e, cfg)
    ensures var n, i := cfg.slotNum, cfg.interval;
            var m, p, b, r := t0 / i + k, t0 % i, e.runAt / i, e.runAt % i;
            && t0 + k * i == m * i + p
            && e.runAt == b * i + r
            && (Fires(e, cursor, t0, k, cfg) <==> m % n == b % n && b * i + r <= m * i + p)
  {
    var i := cfg.interval;
    assert t0 == t0 / i * i + t0 % i && e.runAt == e.runAt / i * i + e.runAt % i;
    assert (t0 / i + k) * i == t0 / i * i + k * i;
    TickSlotIs(cursor, t0 / i, k, cfg.slotNum);
  }

  /** With aligned ticks the lateness of a placed entry is fixed by the phase p of the ticks: it is
      p - (runAt mod I) if that is not negative, and a full rotation more otherwise. */
  lemma ExactLateness(e: Entry, cursor: int, t0: int, j: nat, cfg: Config)
    requires cfg.Ok() && Aligned(cursor, t0, cfg) && PlacedAtDueTime(e, cfg)
    requires t0 - cfg.interval < e.runAt
    requires FirstFires(e, cursor, t0, j, cfg)
    ensures var late := t0 + j * cfg.interval - e.runAt;
            var diff := t0 % cfg.interval - e.runAt % cfg.interval;
            late == if diff >= 0 then diff else diff + Rotation(cfg)
  {
    var n, i := cfg.slotNum, cfg.interval;
    var a, p, b, r := t0 / i, t0 % i, e.runAt / i, e.runAt % i;
    FiresInQuotients(e, cursor, t0, 0, cfg);
    FiresInQuotients(e, cursor, t0, j, cfg);
    BehindStart(a, p, b, r, i);
    var q := SameRemainder(a + j, b, n);
    NotEarlier(a + j, b, q, p, r, n, i);
    var target := if p >= r then b else b + n;
    LatestAtTarget(e, cursor, t0, j, target, cfg);
    assert a + j == target;
    assert (b + n) * i == b * i + n * i;
  }

  /** The visit at the target quotient fires, so the first one is not later. */
  lemma LatestAtTarget(e: Entry, cursor: int, t0: int, j: nat, target: int, cfg: Config)
    requires cfg.Ok() && Aligned(cursor, t0, cfg) && PlacedAtDueTime(e, cfg)
    requires FirstFires(e, cursor, t0, j, cfg)
    requires target == if t0 % cfg.interval >= e.runAt % cfg.interval then e.runAt / cfg.interval else e.runAt / cfg.interval + cfg.slotNum
    requires t0 / cfg.interval <= target
    ensures t0 / cfg.interval + j <= target
  {
    var n, i := cfg.slotNum, cfg.interval;
    var b := e.runAt / i;
    var k := target - t0 / i;
    FiresInQuotients(e, cursor, t0, k, cfg);
    TargetFires(b, target, t0 % i, e.runAt % i, n, i);
    hide Aligned, PlacedAtDueTime, Fires;
    assert Fires(e, cursor, t0, k, cfg);
  }

  lemma TargetFires(b: int, target: int, p: int, r: int, n: int, i: int)
    requires n > 0 && i > 0 && 0 <= p < i && 0 <= r < i
    requires target == if p >= r then b else b + n
    ensures target % n == b % n && b * i + r <= target * i + p
  {
    AddOne(b, n);
    assert (b + n) * i == b * i + n * i;
    Scale(1, n, i);
  }

  /** Not overdue one tick before tick 0, in quotients and remainders. */
  lemma BehindStart(a: int, p: int, b: int, r: int, i: int)
    requires i > 0 && 0 <= p < i && 0 <= r < i
    requires a * i + p - i < b * i + r
    ensures b + 1 >= a && (p >= r ==> b >= a)
  {
    assert (b + 2) * i == b * i + i + i;
    assert (b + 1) * i == b * i + i;
    if b + 1 < a {
      Scale(b + 2, a, i);
    }
  }

  lemma TickSlotIs(cursor: int, a: int, k: int, n: int)
    requires n > 0 && (cursor + 1) % n == a % n
    ensures (cursor + 1 + k) % n == (a + k) % n
  {
    var q := SameRemainder(cursor + 1, a, n);
    AddMultiple(a + k, q, n);
  }

  /** A visit at or after the due time is at least at the due quotient, one rotation later when the
      phase comes before the due remainder. */
  lemma NotEarlier(m: int, b: int, q: int, p: int, r: int, n: int, i: int)
    requires n > 0 && i > 0 && 0 <= p < i && 0 <= r < i && m == b + q * n
    requires m * i + p >= b * i + r
    ensures m >= if p >= r then b else b + n
  {
    assert (m + 1) * i == m * i + i;
    if m < b {
      Scale(m + 1, b, i);
    }
    assert m >= b;
    if p < r {
      assert m != b;
      assert q * n > 0;
      if q <= 0 {
        Scale(q, 0, n);
      }
      Scale(1, q, n);
    }
  }

  // ---------- Runs ----------

  function Ticks(ops: seq<Op>): nat {
    if ops == [] then 0 else Ticks(ops[..|ops| - 1]) + if ops[|ops| - 1].Tick? then 1 else 0
  }

  /** The ticks of a run come every `interval`, the first one at `t0`. */
  predicate TicksEvery(ops: seq<Op>, t0: int, interval: int) {
    forall k :: 0 <= k < |ops| && ops[k].Tick? ==> ops[k].now == t0 + Ticks(ops[..k]) * interval
  }

  /** Operations that cannot change the unpaused task `id` or the ticking. */
  predicate LeavesAlone(op: Op, id: string) {
    match op
    case Stop => false
    case Remove(x) => x != id
    case Update(t, _, _, _, _) => t.None? || t.value.id != id
    case Pause(x) => x != id
    case Clear => false
    case _ => true
  }

  lemma StepLeavesAlone(s: WheelState, op: Op, id: string, cfg: Config)
    requires cfg.Ok() && StateOk(s, cfg) && s.running && id in s.view && !s.view[id].paused && LeavesAlone(op, id)
    requires op.Tick? ==> !Due(s.view[id], CurrentSlot(s, cfg), op.now)
    ensures var s' := Step(s, op, cfg);
            s'.running && s'.cursor == s.cursor + (if op.Tick? then 1 else 0) && id in s'.view && s'.view[id] == s.view[id]
  {
    match op
    case Update(t, now, p, rn, rp) => UpdateKeepsIds(s, t, now, p, rn, rp, cfg);
    case Tick(now, outcomes) => TickMisses(s, id, now, outcomes, cfg);
    case _ =>
  }

  lemma TickMisses(s: WheelState, id: string, now: int, outcomes: string -> RunOutcome, cfg: Config)
    requires cfg.Ok() && id in s.view && !Due(s.view[id], CurrentSlot(s, cfg), now)
    ensures var s' := TickStep(s, now, outcomes, cfg);
            s'.running == s.running && s'.cursor == s.cursor + 1 && id in s'.view && s'.view[id] == s.view[id]
  {
  }

  /** Until its first firing tick nothing happens to a task, whatever else the wheel does. */
  lemma {:induction false} UntouchedUntilFirstFire(s: WheelState, ops: seq<Op>, id: string, t0: int, j: nat, cfg: Config)
    requires cfg.Ok() && StateOk(s, cfg) && s.running && id in s.view && !s.view[id].paused
    requires forall k :: 0 <= k < |ops| ==> LeavesAlone(ops[k], id)
    requires TicksEvery(ops, t0, cfg.interval) && Ticks(ops) <= j
    requires FirstFires(s.view[id], s.cursor, t0, j, cfg)
    ensures var s' := Run(s, ops, cfg);
            s'.running && s'.cursor == s.cursor + Ticks(ops) && id in s'.view && s'.view[id] == s.view[id]
  {
    if ops != [] {
      var n := |ops| - 1;
      forall k | 0 <= k < n && ops[..n][k].Tick? ensures ops[..n][k].now == t0 + Ticks(ops[..n][..k]) * cfg.interval {
        assert ops[..n][..k] == ops[..k];
      }
      UntouchedUntilFirstFire(s, ops[..n], id, t0, j, cfg);
      RunKeepsStateOk(s, ops[..n], cfg);
      if ops[n].Tick? {
        assert !Fires(s.view[id], s.cursor, t0, Ticks(ops[..n]), cfg);
      }
      StepLeavesAlone(Run(s, ops[..n], cfg), ops[n], id, cfg);
    }
  }

  /** A linked, unpaused task runs at the first visit of its slot at or after its due time, which is
      never early and less than a rotation late. Delay, start slot and the other operations do not
      matter, and neither does how `runAt` got its value (AddTask, rescheduleTask or ResumeTask). */
  lemma RunsAtFirstVisit(s: WheelState, ops: seq<Op>, id: string, t0: int, j: nat, outcomes: string -> RunOutcome, cfg: Config)
    requires cfg.Ok() && StateOk(s, cfg) && s.running && id in s.view && !s.view[id].paused
    requires forall k :: 0 <= k < |ops| ==> LeavesAlone(ops[k], id)
    requires TicksEvery(ops, t0, cfg.interval) && Ticks(ops) == j
    requires t0 - cfg.interval < s.view[id].runAt
    requires FirstFires(s.view[id], s.cursor, t0, j, cfg)
    ensures var m := Run(s, ops, cfg);
            var now := t0 + j * cfg.interval;
            && id in m.view && m.view[id] == s.view[id]
            && Runs(m.view[id], CurrentSlot(m, cfg), now)
            && Completions(m, Op.Tick(now, outcomes), id, cfg) == (if outcomes(id).Returned? then 1 else 0)
            && 0 <= now - s.view[id].runAt < Rotation(cfg)
  {
    assert 0 <= s.view[id].slotIndex < cfg.slotNum by {
      assert EntryOk(id, s.view[id], cfg);
    }
    hide StateOk, Step, Run, LeavesAlone, TicksEvery, Rotation;
    UntouchedUntilFirstFire(s, ops, id, t0, j, cfg);
    FirstFireIsInTime(s.view[id], s.cursor, t0, j, cfg);
    RunsWhenItFires(Run(s, ops, cfg), id, s.view[id], s.cursor, t0, j, outcomes, cfg);
    hide FirstFires, Runs, CurrentSlot, Completions;
  }

  lemma RunsWhenItFires(m: WheelState, id: string, e: Entry, cursor: int, t0: int, j: nat, outcomes: string -> RunOutcome, cfg: Config)
    requires cfg.Ok() && FirstFires(e, cursor, t0, j, cfg) && !e.paused
    requires id in m.view && m.view[id] == e && m.cursor == cursor + j
    ensures var now := t0 + j * cfg.interval;
            && Runs(e, CurrentSlot(m, cfg), now)
            && Completions(m, Op.Tick(now, outcomes), id, cfg) == (if outcomes(id).Returned? then 1 else 0)
  {
    assert Fires(e, cursor, t0, j, cfg);
    assert (m.cursor + 1) == cursor + 1 + j;
  }

  lemma FirstFireIsInTime(e: Entry, cursor: int, t0: int, j: nat, cfg: Config)
    requires cfg.Ok() && 0 <= e.slotIndex < cfg.slotNum && t0 - cfg.interval < e.runAt
    requires FirstFires(e, cursor, t0, j, cfg)
    ensures 0 <= t0 + j * cfg.interval - e.runAt < Rotation(cfg)
  {
    var j' := FiresWithinRotation(e, cursor, t0, cfg);
    hide Rotation;
    FirstFiresIsUnique(e, cursor, t0, j, j', cfg);
  }

  /** After a run at time `t` the next one comes at least the interval and less than the interval
      plus a rotation later. `cursor` is the counter after the tick of the run. */
  lemma NextRun(e: Entry, r: AlarmResult, t: int, cursor: int, cfg: Config) returns (j: nat)
    requires cfg.Ok() && e.task.interval > 0 && Execute(e, Returned(r), t, cfg).Some?
    ensures var e' := Execute(e, Returned(r), t, cfg).value;
            FirstFires(e', cursor, t + cfg.interval, j, cfg)
    ensures var gap := t + cfg.interval + j * cfg.interval - t;
            e.task.interval <= gap < e.task.interval + Rotation(cfg)
  {
    j := FiresWithinRotation(Execute(e, Returned(r), t, cfg).value, cursor, t + cfg.interval, cfg);
  }

  /** The exact period in an aligned wheel: the interval itself when it is a multiple of the tick;
      otherwise it is rounded up to the next tick, or to the next tick a rotation later, depending
      on the phase. */
  lemma ExactPeriod(e: Entry, r: AlarmResult, t: int, cursor: int, j: nat, cfg: Config)
    requires cfg.Ok() && e.task.interval > 0 && Execute(e, Returned(r), t, cfg).Some?
    requires WholeMillis(cfg.interval) && WholeMillis(e.task.interval)
    requires Aligned(cursor, t + cfg.interval, cfg)
    requires FirstFires(Execute(e, Returned(r), t, cfg).value, cursor, t + cfg.interval, j, cfg)
    ensures var i := cfg.interval;
            var gap := t + i + j * i - t;
            var d := e.task.interval % i;
            gap == if d == 0 then e.task.interval
                   else if t % i + d >= i then e.task.interval + i - d
                   else e.task.interval + Rotation(cfg) - d
  {
    var i, d := cfg.interval, e.task.interval % cfg.interval;
    RescheduledEntryIsPlaced(e, r, t, cfg);
    ExactLateness(Execute(e, Returned(r), t, cfg).value, cursor, t + i, j, cfg);
    AddOne(t, i);
    SumRemainder(t, e.task.interval, i);
  }

  lemma SumRemainder(a: int, b: int, n: int)
    requires n > 0
    ensures (a + b) % n == if a % n + b % n >= n then a % n + b % n - n else a % n + b % n
  {
    var q := a / n + b / n;
    assert a == a / n * n + a % n && b == b / n * n + b % n;
    assert q * n == a / n * n + b / n * n;
    assert (q + 1) * n == q * n + n;
    if a % n + b % n >= n {
      UniqueQuotient(a + b, q + 1, a % n + b % n - n, n);
    } else {
      UniqueQuotient(a + b, q, a % n + b % n, n);
    }
  }

  /** A tick keeps an aligned wheel aligned for the next one. */
  lemma TickKeepsAligned(cursor: int, t0: int, cfg: Config)
    requires cfg.Ok() && Aligned(cursor, t0, cfg)
    ensures Aligned(cursor + 1, t0 + cfg.interval, cfg)
  {
    AddOne(t0, cfg.interval);
    TickSlotIs(cursor, t0 / cfg.interval, 1, cfg.slotNum);
  }

  /** The wheel of the high-priority level: 60 slots of 10 ms. A task with an interval of 15 ms that
      ran on a tick at phase 0 runs again 610 ms later. */
  lemma HalfTickIntervalCostsARotation(e: Entry, r: AlarmResult, t: int, cursor: int, j: nat)
    requires e.task.interval == 15 * NS_PER_MS && e.task.mode == Repeated && t % (10 * NS_PER_MS) == 0
    requires var cfg := Config(10 * NS_PER_MS, 60);
             Aligned(cursor, t + cfg.interval, cfg) &&
             FirstFires(Execute(e, Returned(r), t, cfg).value, cursor, t + cfg.interval, j, cfg)
    ensures (j + 1) * (10 * NS_PER_MS) == 610 * NS_PER_MS
  {
    ExactPeriod(e, r, t, cursor, j, Config(10 * NS_PER_MS, 60));
  }
}
