/** The single-level timing wheel: slot table, shard maps, lookup cache and free pool, all updated
    in place. Every method refines one step of `WheelSpec`. */
module TimeWheels {
  import opened TaskModel
  import opened Alerts
  import opened WheelSpec
  import PoolSpec
  import opened WheelMeaning
  import opened Slots
  import opened SlotTables

  class TimeWheel {
    const cfg: Config
    const shardNum: nat
    const hash: string -> nat
    const table: SlotTable
    var shards: seq<map<string, TaskSlot>>
    var pool: set<TaskSlot>
    var cache: TaskCache?
    var currentSlot: int
    var running: bool
    var stats: nat
    var totalAlertsFired: nat
    var history: seq<HistoryRecord>

    /** The shard maps seen as one map. */
    ghost var tasks: map<string, TaskSlot>

    // ---------- The invariant ----------

    function Shard(id: string): nat
      requires shardNum > 0
    {
      hash(id) % shardNum
    }

    /** The shard maps together are the map `m`, each id in the shard its hash selects. */
    ghost predicate ShardsAre(sh: seq<map<string, TaskSlot>>, m: map<string, TaskSlot>)
    {
      && |sh| == shardNum > 0
      && (forall k, id {:trigger id in sh[k]} :: 0 <= k < |sh| && id in sh[k] ==>
            k == Shard(id) && id in m && sh[k][id] == m[id])
      && (forall id {:trigger id in m} :: id in m ==> id in sh[Shard(id)])
    }

    lemma ShardsAdd(sh: seq<map<string, TaskSlot>>, m: map<string, TaskSlot>, id: string, node: TaskSlot)
      requires ShardsAre(sh, m)
      ensures ShardsAre(sh[Shard(id) := sh[Shard(id)][id := node]], m[id := node])
    {
    }

    lemma ShardsRemove(sh: seq<map<string, TaskSlot>>, m: map<string, TaskSlot>, id: string)
      requires ShardsAre(sh, m)
      ensures ShardsAre(sh[Shard(id) := sh[Shard(id)] - {id}], m - {id})
    {
    }

    lemma ShardsGive(sh: seq<map<string, TaskSlot>>, m: map<string, TaskSlot>, k: nat, id: string)
      requires ShardsAre(sh, m) && k < |sh| && id in sh[k]
      ensures k == Shard(id) && id in m && sh[k][id] == m[id]
    {
    }

    lemma ShardsEmpty(sh: seq<map<string, TaskSlot>>, m: map<string, TaskSlot>)
      requires ShardsAre(sh, m) && forall k :: 0 <= k < |sh| ==> sh[k] == map[]
      ensures m == map[]
    {
      assert forall id :: id in m ==> id in sh[Shard(id)];
    }

    /** Pooled nodes are in no list and point nowhere. */
    static ghost predicate PoolFree(pool: set<TaskSlot>, linked: set<TaskSlot>)
      reads pool`next, pool`prev
    {
      pool !! linked && forall n {:trigger n in pool} :: n in pool ==> n.next == null && n.prev == null
    }

    static ghost predicate CacheAgrees(cache: TaskCache?, m: map<string, TaskSlot>)
      reads cache
    {
      cache != null ==> cache.Valid() && SubMap(cache.items, m)
    }

    /** Every node the wheel owns. */
    ghost function Nodes(): set<TaskSlot>
      reads this, table
    {
      table.linked + pool
    }

    ghost predicate Index()
      reads this, table, table.linked, pool, cache
    {
      && ShardsAre(shards, tasks)
      && table.Holds(tasks)
      && PoolFree(pool, table.linked)
      && CacheAgrees(cache, tasks)
      && table.slots.Length == cfg.slotNum
    }

    ghost function State(): WheelState
      requires Index()
      reads this, table, table.linked, pool, cache
    {
      WheelState(table.View(tasks), currentSlot, running)
    }

    /** The entries with the flags of the pooled nodes. */
    ghost function Pooled(): PoolSpec.Pooled
      requires Index()
      reads this, table, table.linked, pool, cache
    {
      PoolSpec.Pooled(State(), Flags(pool))
    }

    ghost predicate Valid()
      reads this, table, table.slots, table.linked, pool, cache
    {
      cfg.Ok() && table.Links() && Index() && StateOk(State(), cfg)
    }

    /** What `New` sets up; a wheel with a cache uses the default cache size. */
    constructor (cfg: Config, shardNum: nat, hash: string -> nat, cacheEnabled: bool, now: int)
      requires cfg.Ok() && shardNum > 0
      ensures Valid() && this.cfg == cfg && this.shardNum == shardNum && fresh(table) && fresh(table.slots) && (cache != null ==> fresh(cache))
      ensures State() == WheelState(map[], 0, false) && table.linked == {} && pool == {}
      ensures cache != null ==> cache.maxSize == 100000
      ensures (cacheEnabled <==> cache != null) && stats == 0 && totalAlertsFired == 0 && history == []
    {
      this.cfg, this.shardNum, this.hash := cfg, shardNum, hash;
      table := new SlotTable(cfg.slotNum);
      shards := seq(shardNum, _ => map[]);
      pool, cache, currentSlot, running := {}, null, 0, false;
      stats, totalAlertsFired, history := 0, 0, [];
      tasks := map[];
      new;
      if cacheEnabled {
        cache := new TaskCache(DEFAULT_CACHE_SIZE, now);
      }
    }

    // ---------- Pool, maps and cache ----------

    /** The paused flags a node from the pool may carry: nothing resets them. */
    static ghost function Flags(pool: set<TaskSlot>): set<bool>
      reads pool`paused
    {
      set n | n in pool :: n.paused
    }

    static lemma NoFlags()
      ensures Flags({}) == {}
    {
    }

    static lemma FlagsJoin(s: set<TaskSlot>, t: set<TaskSlot>)
      ensures Flags(s + t) == Flags(s) + Flags(t)
    {
    }

    static lemma FlagsOne(node: TaskSlot)
      ensures Flags({node}) == {node.paused}
    {
    }

    lemma NotPooled(node: TaskSlot)
      requires PoolFree(pool, table.linked) && node in table.linked
      ensures node !in pool
    {
    }

    /** The flags `sync.Pool` may hand out: those of its nodes, or that of a new node. */
    ghost predicate MayCarry(stale: bool, reuse: bool)
      reads this, pool`paused
    {
      if reuse && pool != {} then stale in Flags(pool) else !stale
    }

    /** A node from the pool or a new one, filled for `t`. Its paused flag `stale` is not reset. */
    method NewNode(t: Task, now: int, reuse: bool) returns (node: TaskSlot, ghost stale: bool)
      requires cfg.Ok() && table.Links() && Index()
      modifies this`pool, pool
      ensures table.Links() && Index() && table.View(tasks) == old(table.View(tasks))
      ensures node !in table.linked && node !in pool && pool == old(pool) - {node}
      ensures node in old(pool) || fresh(node)
      ensures !reuse ==> pool == old(pool)
      ensures Flags(pool) <= old(Flags(pool))
      ensures node.task == Some(t) && node.Snapshot() == NewEntry(t, now, cfg, stale)
      ensures node.next == null && node.prev == null
      ensures old(MayCarry(stale, reuse))
      ensures table.InOrder() == old(table.InOrder())
    {
      hide table.Links, ShardsAre, table.Holds, CacheAgrees, table.View, table.InOrder;
      if reuse && pool != {} {
        node :| node in pool;
        pool := pool - {node};
      } else {
        node := new TaskSlot();
      }
      stale := node.paused;
      assert old(MayCarry(stale, reuse));
      node.Fill(t, SlotFor(now, t.interval, cfg), now);
    }

    /** `shard.tasks[id]`: the node of a task, or null. */
    method Lookup(id: string) returns (node: TaskSlot?)
      requires ShardsAre(shards, tasks)
      ensures node == if id in tasks then tasks[id] else null
    {
      var shard := shards[Shard(id)];
      return if id in shard then shard[id] else null;
    }

    method CacheSet(id: string, node: TaskSlot, now: int)
      requires cache != null ==> cache.Valid() && SubMap(cache.items - {id}, tasks)
      requires id in tasks && tasks[id] == node
      modifies cache
      ensures CacheAgrees(cache, tasks)
    {
      if cache != null {
        ghost var before := cache.items;
        var _ := cache.Set(id, node, now);
        forall k | k in cache.items ensures k in tasks && cache.items[k] == tasks[k] {
          if k != id {
            assert k in cache.items - {id};
            assert k in before - {id};
          }
        }
      }
    }

    /** Enters a linked node in its shard and the cache. */
    method Register(node: TaskSlot, now: int)
      requires ShardsAre(shards, tasks) && CacheAgrees(cache, tasks)
      requires node.task.Some? && node.task.value.id !in tasks
      modifies this`tasks, this`shards, cache
      ensures tasks == old(tasks)[node.task.value.id := node]
      ensures ShardsAre(shards, tasks) && CacheAgrees(cache, tasks)
    {
      var id := node.task.value.id;
      var k := Shard(id);
      ShardsAdd(shards, tasks, id, node);
      shards := shards[k := shards[k][id := node]];
      tasks := tasks[id := node];
      CacheSet(id, node, now);
    }

    /** Links a filled node and enters it in the maps. */
    method Enter(node: TaskSlot, now: int)
      requires table.Links() && Index() && node !in table.linked && node !in pool
      requires node.task.Some? && 0 <= node.slotIndex < cfg.slotNum && node.task.value.id !in tasks
      modifies this`tasks, this`shards, cache, table, table.slots
      modifies table.linked`next, table.linked`prev, node`next, node`prev, node`order
      ensures table.Links() && Index() && table.linked == old(table.linked) + {node}
      ensures tasks == old(tasks)[node.task.value.id := node]
      ensures table.View(tasks) == old(table.View(tasks))[node.task.value.id := old(node.Snapshot())]
      ensures table.PlacedByPriority(node)
      ensures old(table.InOrder()) ==> table.InOrder()
    {
      hide table.Links, ShardsAre, table.Holds, CacheAgrees, table.View, table.PlacedByPriority, table.InOrder;
      table.LinkByPriority(node, tasks);
      Register(node, now);
    }

    /** The part of AddTask behind the checks. */
    method Admit(t: Task, now: int, reuse: bool) returns (added: bool, ghost stale: bool)
      requires cfg.Ok() && table.Links() && Index()
      modifies this`pool, this`tasks, this`shards, cache, table, table.slots, table.linked`next, table.linked`prev, pool
      ensures table.Links() && Index()
      ensures added == (t.id !in old(tasks))
      ensures table.View(tasks) == if added then old(table.View(tasks))[t.id := NewEntry(t, now, cfg, stale)] else old(table.View(tasks))
      ensures old(MayCarry(stale, reuse))
      ensures fresh(Nodes() - old(Nodes()))
      ensures added && !reuse ==> pool == old(pool)
      ensures Flags(pool) <= old(Flags(pool)) + {false}
      ensures added ==> t.id in tasks && table.PlacedByPriority(tasks[t.id])
      ensures old(table.InOrder()) ==> table.InOrder()
    {
      hide table.Links, ShardsAre, table.Holds, CacheAgrees, table.View, table.PlacedByPriority, table.InOrder;
      hide Flags, PoolFree, MayCarry;
      FlagChoice(reuse);
      var node;
      node, stale := NewNode(t, now, reuse);
      var existing := Lookup(t.id);
      added := existing == null;
      if added {
        Enter(node, now);
      } else {
        GiveBack(node);
      }
    }

    /** An id that exists: the node goes back to the pool as it is. */
    method GiveBack(node: TaskSlot)
      requires table.Links() && Index() && node !in table.linked && node.next == null && node.prev == null
      modifies this`pool
      ensures table.Links() && Index() && pool == old(pool) + {node}
      ensures Flags(pool) == old(Flags(pool)) + {node.paused}
    {
      hide table.Links, ShardsAre, table.Holds, CacheAgrees, table.View, Flags;
      FlagsJoin(pool, {node});
      FlagsOne(node);
      pool := pool + {node};
    }

    /** A node from the pool carries a flag of the pool, a new one is not paused. */
    lemma FlagChoice(reuse: bool)
      ensures forall stale :: MayCarry(stale, reuse) ==> {stale} <= Flags(pool) + {false}
    {
    }

    // ---------- Operations ----------

    static function Failed<T>(r: Result<T>): Option<Error> {
      if r.Ok? then None else Some(r.error)
    }

    method Start(now: int) returns (panics: bool)
      requires Valid()
      modifies this`running, this`currentSlot
      ensures Valid() && panics == StartPanics(old(State()), cfg)
      ensures State() == Step(old(State()), Op.Start(now), cfg)
      ensures PoolSpec.PoolStep(old(Pooled()), Op.Start(now), Pooled(), cfg)
    {
      hide table.Links, ShardsAre, table.Holds, CacheAgrees, table.View, PoolFree;
      if running {
        return false;
      }
      running := true;
      if Millis(cfg.interval) == 0 {
        return true;
      }
      currentSlot := Millis(now) / Millis(cfg.interval) % cfg.slotNum;
      return false;
    }

    method Stop()
      requires Valid()
      modifies this`running
      ensures Valid()
      ensures State() == Step(old(State()), Op.Stop, cfg)
      ensures PoolSpec.PoolStep(old(Pooled()), Op.Stop, Pooled(), cfg)
    {
      hide table.Links, ShardsAre, table.Holds, CacheAgrees, table.View, PoolFree;
      running := false;
    }

    method CacheGet(id: string) returns (node: TaskSlot?)
      requires CacheAgrees(cache, tasks)
      modifies cache
      ensures CacheAgrees(cache, tasks)
      ensures node != null ==> id in tasks && tasks[id] == node
    {
      node := null;
      if cache != null {
        node := cache.Get(id);
      }
    }

    /** The cache is only a shortcut: the answer is the entry of the map. */
    method GetTask(id: string) returns (node: TaskSlot?)
      requires Valid()
      modifies cache
      ensures Valid() && State() == old(State())
      ensures node == if id in tasks then tasks[id] else null
    {
      hide table.Links, ShardsAre, table.Holds, CacheAgrees, table.View, PoolFree, StateOk;
      node := CacheGet(id);
      if node == null {
        node := Lookup(id);
      }
    }

    method AddTask(task: Option<Task>, now: int, reuse: bool) returns (err: Option<Error>, ghost stale: bool)
      requires Valid()
      modifies this`pool, this`tasks, this`shards, cache, table, table.slots, table.linked`next, table.linked`prev, pool
      ensures Valid()
      ensures err == Failed(AddResult(old(State()), task))
      ensures State() == Step(old(State()), Op.Add(task, now, stale), cfg)
      ensures PoolSpec.PoolStep(old(Pooled()), Op.Add(task, now, stale), Pooled(), cfg)
      ensures err.None? ==> old(MayCarry(stale, reuse))
      ensures fresh(Nodes() - old(Nodes()))
      ensures err.None? && !reuse ==> pool == old(pool)
      ensures err.None? ==> task.value.id in tasks && table.PlacedByPriority(tasks[task.value.id])
      ensures old(table.InOrder()) ==> table.InOrder()
    {
      hide table.Links, ShardsAre, table.Holds, CacheAgrees, table.View, PoolFree, table.PlacedByPriority, table.InOrder;
      hide Flags, MayCarry;
      FlagChoice(reuse);
      stale := false;
      var norm := Normalize(task);
      if norm.Err? {
        return Some(norm.error), stale;
      }
      if !running {
        return Some(WheelNotRunning), stale;
      }
      var added;
      added, stale := Admit(norm.value, now, reuse);
      err := if added then None else Some(TaskAlreadyExists);
      StepKeepsStateOk(old(State()), Op.Add(task, now, stale), cfg);
    }

    /** The node behind a lookup, with the error RemoveTask, PauseTask and ResumeTask give without one. */
    method Find(id: string) returns (node: TaskSlot?, err: Option<Error>)
      requires Index()
      ensures err == Failed(LookupResult(State(), id))
      ensures node != null <==> err.None?
      ensures node != null ==> id in tasks && tasks[id] == node && node in table.linked
      ensures node != null ==> node.task.Some? && node.task.value.id == id && State().view[id] == node.Snapshot()
    {
      if id == "" {
        return null, Some(InvalidParam);
      }
      node := Lookup(id);
      err := if node == null then Some(TaskNotFound) else None;
    }

    method PauseTask(id: string) returns (err: Option<Error>)
      requires Valid()
      modifies table.linked`paused
      ensures Valid()
      ensures err == Failed(LookupResult(old(State()), id))
      ensures State() == Step(old(State()), Op.Pause(id), cfg)
      ensures PoolSpec.PoolStep(old(Pooled()), Op.Pause(id), Pooled(), cfg)
    {
      hide table.Links, ShardsAre, table.Holds, table.View, CacheAgrees, PoolFree, StateOk, Flags, PoolSpec.PoolStep;
      var node;
      node, err := Find(id);
      if node != null && !node.paused {
        NotPooled(node);
        table.SetPaused(node, true, tasks, id);
      } else if node != null {
        assert State().view == State().view[id := State().view[id].(paused := true)];
      }
      StepKeepsStateOk(old(State()), Op.Pause(id), cfg);
      PoolSpec.FlagsSettleStep(old(Pooled()), Op.Pause(id), Pooled(), cfg);
    }

    method ResumeTask(id: string, now: int) returns (err: Option<Error>)
      requires Valid()
      modifies table.linked`paused, table.linked`runAt
      ensures Valid()
      ensures err == Failed(LookupResult(old(State()), id))
      ensures State() == Step(old(State()), Op.Resume(id, now), cfg)
      ensures PoolSpec.PoolStep(old(Pooled()), Op.Resume(id, now), Pooled(), cfg)
    {
      hide table.Links, ShardsAre, table.Holds, table.View, CacheAgrees, PoolFree, StateOk, Flags, PoolSpec.PoolStep;
      var node;
      node, err := Find(id);
      if node != null && node.paused {
        var interval := node.task.value.interval;
        NotPooled(node);
        table.SetResumed(node, now + if interval > 0 then interval else NS_PER_MS, tasks, id);
      }
      StepKeepsStateOk(old(State()), Op.Resume(id, now), cfg);
      PoolSpec.FlagsSettleStep(old(Pooled()), Op.Resume(id, now), Pooled(), cfg);
    }

    /** Gives an unlinked node back to the pool. Its paused flag stays as it is. */
    method Release(node: TaskSlot, resetAlert: bool)
      requires PoolFree(pool, table.linked) && table.Links() && table.Holds(tasks)
      requires node !in table.linked && node.next == null && node.prev == null
      modifies this`pool, node`task, node`alertState, node`pendingSince, node`lastFiredAt, node`lastResult
      ensures PoolFree(pool, table.linked) && table.Links() && table.Holds(tasks)
      ensures pool == old(pool) + {node} && table.View(tasks) == old(table.View(tasks))
      ensures Flags(pool) == old(Flags(pool)) + {node.paused}
    {
      hide table.Links, table.Holds, table.View;
      node.task := None;
      if resetAlert {
        node.alertState := Pending;
        node.pendingSince := None;
        node.lastFiredAt := None;
        node.lastResult := NO_RESULT;
      }
      pool := pool + {node};
    }

    /** The list part of a removal; the pool is not touched. */
    method TakeOut(node: TaskSlot, head: int, id: string)
      requires table.Links() && table.Holds(tasks) && PoolFree(pool, table.linked)
      requires id in tasks && tasks[id] == node && node in table.linked && node.slotIndex == head
      modifies table, table.slots, table.linked`next, table.linked`prev
      ensures table.Links() && table.Holds(tasks - {id}) && PoolFree(pool, table.linked)
      ensures table.View(tasks - {id}) == old(table.View(tasks)) - {id}
      ensures table.linked == old(table.linked) - {node} && node.next == null && node.prev == null
      ensures node !in pool && Flags(pool) == old(Flags(pool)) && node.paused == old(node.paused)
      ensures old(table.InOrder()) ==> table.InOrder()
    {
      hide table.Links, table.Holds, table.View, Flags, table.InOrder;
      table.Detach(node, head, tasks, id);
    }

    /** The map part of a removal. */
    method Unregister(id: string)
      requires ShardsAre(shards, tasks)
      modifies this`tasks, this`shards
      ensures ShardsAre(shards, tasks) && tasks == old(tasks) - {id}
      ensures shards == old(shards)[Shard(id) := old(shards)[Shard(id)] - {id}]
    {
      var k := Shard(id);
      ShardsRemove(shards, tasks, id);
      shards := shards[k := shards[k] - {id}];
      tasks := tasks - {id};
    }

    /** What every removal does: out of the list, out of the shard, into the pool. */
    method Drop(node: TaskSlot, head: int, id: string, resetAlert: bool)
      requires table.Links() && ShardsAre(shards, tasks) && table.Holds(tasks) && PoolFree(pool, table.linked)
      requires id in tasks && tasks[id] == node && node in table.linked && node.slotIndex == head
      modifies this`tasks, this`shards, this`pool, table, table.slots, table.linked`next, table.linked`prev
      modifies node`task, node`alertState, node`pendingSince, node`lastFiredAt, node`lastResult
      ensures table.Links() && ShardsAre(shards, tasks) && table.Holds(tasks) && PoolFree(pool, table.linked)
      ensures tasks == old(tasks) - {id} && table.View(tasks) == old(table.View(tasks)) - {id}
      ensures table.linked == old(table.linked) - {node} && pool == old(pool) + {node}
      ensures Flags(pool) == old(Flags(pool)) + {old(node.paused)}
      ensures shards == old(shards)[Shard(id) := old(shards)[Shard(id)] - {id}]
      ensures old(table.InOrder()) ==> table.InOrder()
    {
      hide table.Links, table.Holds, table.View, ShardsAre, PoolFree, Flags, table.InOrder;
      TakeOut(node, head, id);
      Unregister(id);
      Release(node, resetAlert);
    }

    method CacheDelete(id: string, ghost before: map<string, TaskSlot>)
      requires CacheAgrees(cache, before) && tasks == before - {id}
      modifies cache
      ensures CacheAgrees(cache, tasks)
    {
      if cache != null {
        cache.Delete(id);
      }
    }

    /** A removal with its cache entry. */
    method Discard(node: TaskSlot, head: int, id: string, resetAlert: bool)
      requires cfg.Ok() && table.Links() && Index()
      requires id in tasks && tasks[id] == node && node in table.linked && node.slotIndex == head
      modifies this`tasks, this`shards, this`pool, cache, table, table.slots, table.linked
      ensures table.Links() && Index() && Nodes() == old(Nodes()) && table.linked <= old(table.linked)
      ensures tasks == old(tasks) - {id} && table.View(tasks) == old(table.View(tasks)) - {id}
      ensures pool != {} && Flags(pool) == old(Flags(pool)) + {old(node.paused)}
      ensures old(table.InOrder()) ==> table.InOrder()
    {
      hide ShardsAre, table.Holds, CacheAgrees, table.Links, table.View, PoolFree, Flags, table.InOrder;
      Drop(node, head, id, resetAlert);
      CacheDelete(id, old(tasks));
    }

    method RemoveTask(id: string) returns (err: Option<Error>)
      requires Valid()
      modifies this`tasks, this`shards, this`pool, cache, table, table.slots, table.linked
      ensures Valid()
      ensures err == Failed(LookupResult(old(State()), id))
      ensures State() == Step(old(State()), Op.Remove(id), cfg)
      ensures PoolSpec.PoolStep(old(Pooled()), Op.Remove(id), Pooled(), cfg)
      ensures Nodes() == old(Nodes())
      ensures err.None? ==> pool != {} && Flags(pool) == old(Flags(pool)) + {old(State()).view[id].paused}
      ensures old(table.InOrder()) ==> table.InOrder()
    {
      hide table.Links, ShardsAre, table.Holds, table.View, CacheAgrees, PoolFree, Flags, StateOk, table.InOrder;
      var node;
      node, err := Find(id);
      if node == null {
        return;
      }
      Discard(node, node.slotIndex, id, false);
      StepKeepsStateOk(old(State()), Op.Remove(id), cfg);
    }

    /** The part of UpdateTask behind the checks: remove, add, and restore `was` on failure. */
    method Replace(task: Task, was: Task, now: int, reuse: bool, restoreNow: int, restoreReuse: bool)
      returns (err: Option<Error>, ghost stale: bool, ghost restoreStale: bool)
      requires Valid() && task.id != "" && task.id in State().view
      requires was == State().view[task.id].task
      modifies this`tasks, this`shards, this`pool, cache, table, table.slots, table.linked, pool
      ensures Valid()
      ensures var s := RemoveStep(old(State()), task.id);
              && err == Failed(AddResult(s, Some(task)))
              && State() == if err.None? then AddStep(s, Some(task), now, stale, cfg)
                            else AddStep(s, Some(was), restoreNow, restoreStale, cfg)
      ensures fresh(Nodes() - old(Nodes()))
      ensures var flags := old(Flags(pool)) + {old(State()).view[task.id].paused};
              && Flags(pool) <= flags + {false}
              && (err.None? ==> PoolSpec.MayCarry(flags, stale))
              && (err.Some? && AddResult(RemoveStep(old(State()), task.id), Some(was)).Ok? ==> PoolSpec.MayCarry(flags, restoreStale))
    {
      hide table.Links, ShardsAre, table.Holds, table.View, CacheAgrees, PoolFree, StateOk, Index, State, Valid;
      hide Flags, MayCarry, table.PlacedByPriority, AddResult, NewEntry, RemoveStep, LookupResult;
      stale, restoreStale := false, false;
      err := RemoveTask(task.id);
      err, stale := AddTask(Some(task), now, reuse);
      if err.Some? {
        var restoreErr;
        restoreErr, restoreStale := AddTask(Some(was), restoreNow, restoreReuse);
      }
    }

    /** The definition of a task in a running wheel can be added again. */
    lemma OldTaskIsAddable(task: Option<Task>)
      requires Valid()
      ensures PoolSpec.Reaches(State(), task) ==>
                AddResult(RemoveStep(State(), task.value.id), Some(State().view[task.value.id].task)).Ok?
    {
      if PoolSpec.Reaches(State(), task) {
        assert EntryOk(task.value.id, State().view[task.value.id], cfg);
      }
      hide table.Links, ShardsAre, table.Holds, table.View, CacheAgrees, PoolFree;
    }

    method UpdateTask(task: Option<Task>, now: int, reuse: bool, restoreNow: int, restoreReuse: bool)
      returns (err: Option<Error>, ghost stale: bool, ghost restoreStale: bool)
      requires Valid()
      modifies this`tasks, this`shards, this`pool, cache, table, table.slots, table.linked, pool
      ensures Valid()
      ensures err == Failed(UpdateResult(old(State()), task))
      ensures State() == Step(old(State()), Op.Update(task, now, stale, restoreNow, restoreStale), cfg)
      ensures PoolSpec.PoolStep(old(Pooled()), Op.Update(task, now, stale, restoreNow, restoreStale), Pooled(), cfg)
      ensures fresh(Nodes() - old(Nodes()))
    {
      hide table.Links, ShardsAre, table.Holds, table.View, CacheAgrees, PoolFree, Flags, StateOk, AddResult, AddStep;
      hide PoolSpec.PoolStep, PoolSpec.MayCarry;
      OldTaskIsAddable(task);
      stale, restoreStale := false, false;
      if task.None? || task.value.id == "" || !task.value.hasRun {
        err := Some(InvalidParam);
      } else if !running {
        err := Some(WheelNotRunning);
      } else {
        var node, _ := Find(task.value.id);
        if node == null {
          err := Some(TaskNotFound);
        } else {
          err, stale, restoreStale := Replace(task.value, node.task.value, now, reuse, restoreNow, restoreReuse);
        }
      }
      PoolSpec.UpdateSettlesStep(old(Pooled()), Op.Update(task, now, stale, restoreNow, restoreStale), Pooled(), cfg);
    }

    /** The lists, maps and pool agree; the cache is left aside. */
    ghost predicate Coherent()
      reads this, table, table.slots, table.linked, pool
    {
      table.Links() && ShardsAre(shards, tasks) && table.Holds(tasks) && PoolFree(pool, table.linked)
    }

    /** Drops the task `id` of shard `i`. */
    method ClearOne(i: nat, id: string)
      requires Coherent() && i < |shards| && id in shards[i]
      modifies this`tasks, this`shards, this`pool, table, table.slots, table.linked`next, table.linked`prev
      modifies table.linked`task, table.linked`alertState, table.linked`pendingSince, table.linked`lastFiredAt, table.linked`lastResult
      ensures Coherent() && tasks == old(tasks) - {id} && |tasks| == old(|tasks|) - 1
      ensures shards == old(shards)[i := old(shards)[i] - {id}]
      ensures Nodes() == old(Nodes()) && table.linked <= old(table.linked)
    {
      hide table.Links, PoolFree, Flags, table.View, ShardsAre, table.Holds;
      ShardsGive(shards, tasks, i, id);
      table.HoldsGives(tasks, id);
      var node := shards[i][id];
      ghost var before := tasks;
      Drop(node, node.slotIndex, id, true);
      assert before == tasks[id := node];
    }

    /** The inner loop: removes every task of shard `i`. */
    method ClearShard(i: nat) returns (count: nat)
      requires Coherent() && i < |shards|
      modifies this`tasks, this`shards, this`pool, table, table.slots, table.linked`next, table.linked`prev
      modifies table.linked`task, table.linked`alertState, table.linked`pendingSince, table.linked`lastFiredAt, table.linked`lastResult
      ensures Coherent() && |tasks| == old(|tasks|) - count
      ensures shards == old(shards)[i := map[]]
      ensures Nodes() == old(Nodes()) && table.linked <= old(table.linked)
    {
      hide Coherent, Nodes;
      count := 0;
      while shards[i] != map[]
        invariant Coherent() && |tasks| == old(|tasks|) - count
        invariant |shards| == old(|shards|) && shards == old(shards)[i := shards[i]]
        invariant Nodes() == old(Nodes()) && table.linked <= old(table.linked)
        decreases |tasks|
      {
        var id :| id in shards[i];
        ClearOne(i, id);
        count := count + 1;
      }
    }

    /** Empties lists and shards; the cache is left to the caller. */
    method ClearShards() returns (count: nat)
      requires Coherent()
      modifies this`tasks, this`shards, this`pool, table, table.slots, table.linked`next, table.linked`prev
      modifies table.linked`task, table.linked`alertState, table.linked`pendingSince, table.linked`lastFiredAt, table.linked`lastResult
      ensures Coherent() && tasks == map[] && count == old(|tasks|)
      ensures forall k :: 0 <= k < |shards| ==> shards[k] == map[]
      ensures Nodes() == old(Nodes()) && table.linked <= old(table.linked)
    {
      hide table.Links, PoolFree, table.Holds, ShardsAre, Nodes;
      count := 0;
      for i := 0 to |shards|
        invariant Coherent() && |tasks| == old(|tasks|) - count
        invariant |shards| == old(|shards|) && forall k :: 0 <= k < i ==> shards[k] == map[]
        invariant Nodes() == old(Nodes()) && table.linked <= old(table.linked)
      {
        var n := ClearShard(i);
        count := count + n;
      }
      ShardsEmpty(shards, tasks);
      assert |tasks| == 0;
    }

    /** Empties the wheel and says how many tasks there were. */
    method ClearAllTasks(now: int) returns (count: nat)
      requires Valid()
      modifies this`tasks, this`shards, this`pool, this`cache, table, table.slots, table.linked`next, table.linked`prev
      modifies table.linked`task, table.linked`alertState, table.linked`pendingSince, table.linked`lastFiredAt, table.linked`lastResult
      ensures Valid() && count == |old(State()).view|
      ensures State() == Step(old(State()), Op.Clear, cfg)
      ensures PoolSpec.PoolStep(old(Pooled()), Op.Clear, Pooled(), cfg)
      ensures forall i :: 0 <= i < table.slots.Length ==> table.slots[i] == null
      ensures forall k :: 0 <= k < |shards| ==> shards[k] == map[]
      ensures cache != null ==> fresh(cache) && cache.items == map[]
      ensures table.linked == {} && pool == old(Nodes())
    {
      hide ShardsAre, PoolFree, CacheAgrees, table.View, table.Links, table.Holds, StateOk, Flags, PoolSpec.Released, PoolSpec.PoolStep;
      ReleasedByClear();
      ghost var all, flags := Nodes(), Flags(Nodes());
      assert |tasks| == |tasks.Keys| == |State().view.Keys| == |State().view|;
      count := ClearShards();
      assert Flags(all) == flags;
      table.EmptyTable();
      assert table.View(tasks) == map[] && pool == all;
      ResetCache(now);
      StepKeepsStateOk(old(State()), Op.Clear, cfg);
      PoolSpec.FlagsSettleStep(old(Pooled()), Op.Clear, Pooled(), cfg);
    }

    /** Clearing hands back the flags of all entries. */
    lemma ReleasedByClear()
      requires Index()
      ensures Flags(Nodes()) == Flags(pool) + PoolSpec.Released(State(), Op.Clear)
    {
      FlagsJoin(table.linked, pool);
      LinkedFlags(table, tasks);
      hide Flags, ShardsAre, table.Holds, PoolFree, CacheAgrees, table.View;
    }

    static lemma LinkedFlags(table: SlotTable, m: map<string, TaskSlot>)
      requires table.Holds(m)
      ensures Flags(table.linked) == set id | id in table.View(m) :: table.View(m)[id].paused
    {
      var flags := set id | id in table.View(m) :: table.View(m)[id].paused;
      forall n | n in table.linked ensures n.paused in flags {
        table.HoldsGives(m, n.task.value.id);
      }
      forall id | id in m ensures m[id].paused in Flags(table.linked) && m[id].paused == table.View(m)[id].paused {
        table.HoldsGives(m, id);
      }
      hide table.Holds, table.View;
    }

    /** A new cache of the default size replaces the old one. */
    method ResetCache(now: int)
      modifies this`cache
      ensures CacheAgrees(cache, map[])
      ensures cache != null ==> fresh(cache) && cache.items == map[] && cache.maxSize == DEFAULT_CACHE_SIZE
      ensures cache == null <==> old(cache) == null
    {
      if cache != null {
        cache := new TaskCache(DEFAULT_CACHE_SIZE, now);
      }
    }

    // ---------- Execution ----------

    method Record(id: string, oldState: AlertState, newState: AlertState, result: AlarmResult)
      modifies this`history
      ensures history == old(history) + [HistoryRecord(id, Notice(oldState, newState), result)]
    {
      history := history + [HistoryRecord(id, Notice(oldState, newState), result)];
    }

    /** Advances the alert state of a node and reports what changed. */
    method HandleAlertState(node: TaskSlot, result: AlarmResult, now: int)
      requires node.task.Some?
      modifies this`history, this`totalAlertsFired, node`alertState, node`pendingSince, node`lastFiredAt
      ensures var h := Alert(old(node.Snapshot()), result, now);
              && node.Track() == h.track
              && history == old(history) + Records(node.task.value.id, h.notices, result)
              && totalAlertsFired == old(totalAlertsFired) + h.counted
    {
      var t := node.task.value;
      var oldState := node.alertState;
      var newState := node.ComputeAlertState(result.isFiring, t.forDuration, now);
      node.alertState := newState;
      if oldState != newState {
        Record(t.id, oldState, newState, result);
        if newState == Firing && t.repeatInterval > 0 {
          totalAlertsFired := totalAlertsFired + 1;
          node.lastFiredAt := Some(now);
        } else if newState == Firing {
          totalAlertsFired := totalAlertsFired + 1;
        }
      } else if newState == Firing && t.repeatInterval > 0 {
        if node.lastFiredAt.Some? && now - node.lastFiredAt.value >= t.repeatInterval {
          totalAlertsFired := totalAlertsFired + 1;
          Record(t.id, oldState, newState, result);
          node.lastFiredAt := Some(now);
        }
      }
    }

    /** updateTaskResult and handleAlertState: counts a returned callback, advances its alert state. */
    method RecordRun(node: TaskSlot, result: AlarmResult, now: int)
      requires node.task.Some?
      modifies this`stats, this`history, this`totalAlertsFired
      modifies node`executed, node`lastResult, node`alertState, node`pendingSince, node`lastFiredAt
      ensures node.Snapshot() == Completed(old(node.Snapshot()), result, now)
      ensures stats == old(stats) + 1
      ensures var h := Alert(old(node.Snapshot()), result, now);
              history == old(history) + Records(node.task.value.id, h.notices, result) &&
              totalAlertsFired == old(totalAlertsFired) + h.counted
    {
      hide Handle, Records;
      stats := stats + 1;
      node.executed := node.executed + 1;
      node.lastResult := result;
      HandleAlertState(node, result, now);
    }

    /** The same, seen from the map. */
    method CompleteRun(node: TaskSlot, result: AlarmResult, now: int, ghost id: string)
      requires table.Links() && table.Holds(tasks) && id in tasks && tasks[id] == node && node.task.Some?
      modifies this`stats, this`history, this`totalAlertsFired
      modifies node`executed, node`lastResult, node`alertState, node`pendingSince, node`lastFiredAt
      ensures table.Links() && table.Holds(tasks)
      ensures table.View(tasks) == old(table.View(tasks))[id := Completed(old(node.Snapshot()), result, now)]
      ensures stats == old(stats) + 1
      ensures var h := Alert(old(node.Snapshot()), result, now);
              history == old(history) + Records(node.task.value.id, h.notices, result) &&
              totalAlertsFired == old(totalAlertsFired) + h.counted
    {
      hide table.Links, Alert, Records, Completed;
      RecordRun(node, result, now);
    }

    /** The list part of rescheduling. A node whose slot does not change stays where it is. */
    method Reslot(node: TaskSlot, now: int, currentSlot: int, ghost id: string)
      requires cfg.Ok() && table.Links() && table.Holds(tasks) && table.slots.Length == cfg.slotNum
      requires id in tasks && tasks[id] == node && node in table.linked && node.task.Some? && node.slotIndex == currentSlot
      modifies table, table.slots, table.linked`next, table.linked`prev, node`slotIndex, node`order, node`runAt
      ensures table.Links() && table.Holds(tasks) && table.linked == old(table.linked)
      ensures var interval := node.task.value.interval;
              table.View(tasks) == old(table.View(tasks))[id :=
                old(node.Snapshot()).(runAt := now + interval, slotIndex := SlotFor(now, interval, cfg))]
      ensures old(node.slotIndex) != node.slotIndex ==> table.slots[node.slotIndex] == node
      ensures old(table.InOrder()) ==> (table.InOrder() <==> old(node.slotIndex) == node.slotIndex || node.next == null || SlotTable.Value(node) <= SlotTable.Value(node.next))
    {
      hide table.Holds, table.Links, table.View, table.InOrder;
      table.HoldsGives(tasks, id);
      var interval := node.task.value.interval;
      var newSlot := SlotFor(now, interval, cfg);
      table.SetRunAt(node, now + interval, tasks, id);
      if node.slotIndex != newSlot {
        table.Move(node, currentSlot, newSlot, tasks, id);
      }
      table.HoldsGives(tasks, id);
    }

    /** Keeps a task for its next run. */
    method RescheduleTask(node: TaskSlot, now: int, currentSlot: int, ghost id: string)
      requires cfg.Ok() && table.Links() && Index()
      requires id in tasks && tasks[id] == node && node in table.linked && node.task.Some? && node.slotIndex == currentSlot
      modifies table, table.slots, table.linked`next, table.linked`prev, node`slotIndex, node`order, node`runAt
      ensures table.Links() && Index() && Nodes() == old(Nodes()) && table.linked == old(table.linked)
      ensures var interval := node.task.value.interval;
              table.View(tasks) == old(table.View(tasks))[id :=
                old(node.Snapshot()).(runAt := now + interval, slotIndex := SlotFor(now, interval, cfg))]
      ensures old(table.InOrder()) ==> (table.InOrder() <==> old(node.slotIndex) == node.slotIndex || node.next == null || SlotTable.Value(node) <= SlotTable.Value(node.next))
    {
      hide ShardsAre, table.Holds, CacheAgrees, table.Links, table.View, SlotFor, table.InOrder;
      Reslot(node, now, currentSlot, id);
    }

    /** handleTaskScheduling: after a returned callback the task is kept or removed. */
    method HandleScheduling(node: TaskSlot, now: int, currentSlot: int, ghost id: string)
      requires cfg.Ok() && table.Links() && Index()
      requires id in tasks && tasks[id] == node && node in table.linked && node.slotIndex == currentSlot
      requires node.task.Some? && node.task.value.id == id
      modifies this`tasks, this`shards, this`pool, cache, table, table.slots, table.linked
      ensures table.Links() && Index() && Nodes() == old(Nodes()) && SubMap(tasks, old(tasks))
      ensures table.linked <= old(table.linked)
      ensures Flags(pool) <= old(Flags(pool)) + {old(node.paused)}
      ensures var e := old(node.Snapshot());
              var v := old(table.View(tasks));
              table.View(tasks) ==
                if ShouldReschedule(e) then v[id := e.(runAt := now + e.task.interval, slotIndex := SlotFor(now, e.task.interval, cfg))]
                else v - {id}
    {
      hide ShardsAre, CacheAgrees, table.Links, PoolFree, Flags, table.Holds, table.View, SlotFor;
      if ShouldReschedule(node.Snapshot()) {
        RescheduleTask(node, now, currentSlot, id);
      } else {
        Discard(node, currentSlot, node.task.value.id, true);
      }
    }

    /** What follows a callback that returned. */
    method FinishRun(node: TaskSlot, result: AlarmResult, now: int, currentSlot: int, ghost id: string)
      requires cfg.Ok() && table.Links() && Index()
      requires id in tasks && tasks[id] == node && node in table.linked && node.slotIndex == currentSlot
      requires node.task.Some? && node.task.value.id == id
      modifies this`tasks, this`shards, this`pool, this`stats, this`history, this`totalAlertsFired
      modifies cache, table, table.slots, table.linked
      ensures table.Links() && Index() && Nodes() == old(Nodes()) && SubMap(tasks, old(tasks))
      ensures table.linked <= old(table.linked) && Flags(pool) <= old(Flags(pool)) + {old(node.paused)}
      ensures var v, e := old(table.View(tasks)), old(node.Snapshot());
              var c := Completed(e, result, now);
              table.View(tasks) ==
                if ShouldReschedule(c) then v[id := c.(runAt := now + e.task.interval, slotIndex := SlotFor(now, e.task.interval, cfg))]
                else v - {id}
      ensures var h := Alert(old(node.Snapshot()), result, now);
              && history == old(history) + Records(id, h.notices, result)
              && totalAlertsFired == old(totalAlertsFired) + h.counted
              && stats == old(stats) + 1
    {
      hide ShardsAre, CacheAgrees, table.Links, PoolFree, Flags, table.Holds, table.View, Alert, SlotFor, ShouldReschedule, Records;
      CompleteRun(node, result, now, id);
      table.HoldsGives(tasks, id);
      HandleScheduling(node, now, currentSlot, id);
    }

    /** Runs the callback of a collected task, with outcome `o`, and decides what becomes of it. */
    method ExecuteTask(node: TaskSlot, o: RunOutcome, now: int, currentSlot: int, ghost id: string)
      requires cfg.Ok() && table.Links() && Index()
      requires id in tasks && tasks[id] == node && node in table.linked && node.slotIndex == currentSlot
      modifies this`tasks, this`shards, this`pool, this`stats, this`history, this`totalAlertsFired
      modifies cache, table, table.slots, table.linked
      ensures table.Links() && Index() && Nodes() == old(Nodes()) && SubMap(tasks, old(tasks))
      ensures table.linked <= old(table.linked) && Flags(pool) <= old(Flags(pool)) + {false}
      ensures table.View(tasks) == RunInView(old(table.View(tasks)), id, o, now, cfg)
      ensures var e := old(node.Snapshot());
              && history == Logged(old(history), e, o, now)
              && totalAlertsFired == old(totalAlertsFired) + Counted(e, o, now)
              && stats == old(stats) + if e.paused || o.Panicked? then 0 else 1
    {
      hide ShardsAre, CacheAgrees, table.Links, PoolFree, Flags, table.Holds, table.View, Alert, Completed, SlotFor, ShouldReschedule, Records;
      table.HoldsGives(tasks, id);
      if node.paused || o.Panicked? {
        return;
      }
      FinishRun(node, o.result, now, currentSlot, id);
    }

    // ---------- Tick ----------

    /** `due` holds exactly the due nodes of the list up to place `k`, each once. */
    static ghost predicate DueUpTo(due: seq<TaskSlot>, l: seq<TaskSlot>, k: nat, now: int)
      requires k <= |l|
      reads l
    {
      && (forall n <- due :: n in l[..k] && n.runAt <= now)
      && (forall n <- l[..k] :: n.runAt <= now ==> n in due)
      && Distinct(due)
    }

    static lemma NoneDue(l: seq<TaskSlot>, now: int)
      ensures DueUpTo([], l, 0, now)
    {
    }

    lemma DueStep(due: seq<TaskSlot>, l: seq<TaskSlot>, k: nat, now: int, current: int)
      requires table.EndsList(l, current) && k < |l| && DueUpTo(due, l, k, now)
      ensures DueUpTo(if l[k].runAt <= now then due + [l[k]] else due, l, k + 1, now)
      ensures l[k].next == if k + 1 < |l| then l[k + 1] else null
    {
      assert l[..k + 1] == l[..k] + [l[k]];
      assert l[k] !in l[..k];
    }

    /** Walks the list of slot `current` and collects the due nodes. */
    method Collect(current: int, now: int) returns (due: seq<TaskSlot>)
      requires table.Links() && 0 <= current < table.slots.Length
      ensures forall n :: n in due <==> n in table.linked && n.slotIndex == current && n.runAt <= now
      ensures Distinct(due)
    {
      hide table.Links, table.EndsList, DueUpTo, table.Walk, table.List, Distinct;
      table.SlotIsList(current);
      ghost var l := table.List(current);
      ghost var k := 0;
      due := [];
      NoneDue(l, now);
      var node := table.slots[current];
      while node != null
        invariant 0 <= k <= |l| && node == if k < |l| then l[k] else null
        invariant DueUpTo(due, l, k, now)
        decreases |l| - k
      {
        DueStep(due, l, k, now, current);
        if now - node.runAt >= 0 {
          due := due + [node];
        }
        node := node.next;
        k := k + 1;
      }
      AllCollected(due, l, now);
    }

    static lemma AllCollected(due: seq<TaskSlot>, l: seq<TaskSlot>, now: int)
      requires DueUpTo(due, l, |l|, now)
      ensures (forall n :: n in due <==> n in l && n.runAt <= now) && Distinct(due)
    {
      assert l[..|l|] == l;
    }

    static predicate ByPriority(s: seq<TaskSlot>)
      reads s
    {
      && (forall n :: n in s ==> n.task.Some?)
      && (forall i, j :: 0 <= i < j < |s| ==> s[i].task.value.priority <= s[j].task.value.priority)
    }

    static lemma InsertSorted(s: seq<TaskSlot>, x: TaskSlot) returns (r: seq<TaskSlot>)
      requires ByPriority(s) && x.task.Some?
      ensures ByPriority(r) && multiset(r) == multiset(s) + multiset{x}
    {
      var p := 0;
      while p < |s| && s[p].task.value.priority <= x.task.value.priority
        invariant 0 <= p <= |s|
        invariant forall j :: 0 <= j < p ==> s[j].task.value.priority <= x.task.value.priority
      {
        p := p + 1;
      }
      r := s[..p] + [x] + s[p..];
      InsertAt(s, x, p);
      hide ByPriority;
      assert s == s[..p] + s[p..];
    }

    static lemma InsertAt(s: seq<TaskSlot>, x: TaskSlot, p: nat)
      requires ByPriority(s) && x.task.Some? && p <= |s|
      requires forall j :: 0 <= j < p ==> s[j].task.value.priority <= x.task.value.priority
      requires p < |s| ==> x.task.value.priority <= s[p].task.value.priority
      ensures ByPriority(s[..p] + [x] + s[p..])
    {
    }

    static lemma SortedExists(due: seq<TaskSlot>) returns (r: seq<TaskSlot>)
      requires forall n :: n in due ==> n.task.Some?
      ensures ByPriority(r) && multiset(r) == multiset(due)
    {
      if due == [] {
        r := [];
      } else {
        var n := |due| - 1;
        var q := SortedExists(due[..n]);
        assert due == due[..n] + [due[n]];
        r := InsertSorted(q, due[n]);
      }
    }

    /** `sort.Slice` is not stable: any arrangement by priority may come out. */
    static method SortByPriority(due: seq<TaskSlot>) returns (sorted: seq<TaskSlot>)
      requires forall n :: n in due ==> n.task.Some?
      ensures multiset(sorted) == multiset(due) && ByPriority(sorted)
    {
      ghost var r := SortedExists(due);
      sorted :| multiset(sorted) == multiset(due) && ByPriority(sorted);
    }

    /** Rearranging a sequence keeps its elements distinct. */
    static lemma {:induction false} DistinctCount<T>(s: seq<T>)
      ensures Distinct(s) <==> forall x :: x in multiset(s) ==> multiset(s)[x] == 1
    {
      if s != [] {
        var n := |s| - 1;
        var last, m := s[n], multiset(s[..n]);
        DistinctCount(s[..n]);
        assert s == s[..n] + [last];
        assert multiset(s) == m + multiset{last};
        assert last in m <==> last in s[..n];
        if Distinct(s) {
          forall x | x in multiset(s) ensures multiset(s)[x] == 1 {
            assert x != last ==> x in m;
          }
        }
        if forall x :: x in multiset(s) ==> multiset(s)[x] == 1 {
          assert multiset(s)[last] == 1;
          forall x | x in m ensures m[x] == 1 {
            assert multiset(s)[x] == 1;
          }
        }
      }
    }

    /** The due nodes of slot `current`, by priority. */
    method CollectByPriority(current: int, now: int) returns (sorted: seq<TaskSlot>)
      requires table.Links() && table.Holds(tasks) && 0 <= current < table.slots.Length
      ensures forall n :: n in sorted <==> n in table.linked && n.slotIndex == current && n.runAt <= now
      ensures Distinct(sorted) && ByPriority(sorted)
    {
      var due := Collect(current, now);
      hide table.Links, Distinct, ByPriority;
      sorted := SortByPriority(due);
      assert forall n {:trigger n in sorted} :: n in sorted <==> n in multiset(sorted);
      assert forall n {:trigger n in due} :: n in due <==> n in multiset(due);
      DistinctCount(due);
      DistinctCount(sorted);
    }

    /** The ids of collected nodes. */
    lemma IdsOf(sorted: seq<TaskSlot>, current: int, now: int) returns (order: seq<string>)
      requires table.Holds(tasks) && Distinct(sorted) && ByPriority(sorted)
      requires forall n :: n in sorted <==> n in table.linked && n.slotIndex == current && n.runAt <= now
      ensures |order| == |sorted|
      ensures forall i {:trigger order[i]} :: 0 <= i < |order| ==> order[i] in tasks && tasks[order[i]] == sorted[i]
      ensures Distinct(order)
      ensures forall id :: id in order <==> id in tasks && Due(tasks[id].Snapshot(), current, now)
    {
      order := seq(|sorted|, i requires 0 <= i < |sorted| && sorted[i].task.Some? reads sorted => sorted[i].task.value.id);
      forall i | 0 <= i < |order| ensures order[i] in tasks && tasks[order[i]] == sorted[i] {
        assert sorted[i] in table.linked;
      }
      forall id | id in tasks && Due(tasks[id].Snapshot(), current, now) ensures id in order {
        assert tasks[id] in sorted;
        var i :| 0 <= i < |sorted| && sorted[i] == tasks[id];
        assert order[i] == id;
      }
    }

    ghost function CurrentBooks(): Books
      reads this
    {
      Books(stats, totalAlertsFired, history)
    }

    /** Runs the next collected task: `done` ran before it, from the entries `v`. */
    method ExecuteNext(node: TaskSlot, outcomes: string -> RunOutcome, now: int, current: int,
                       ghost v: View, ghost was: Books, ghost done: seq<string>, ghost id: string)
      requires cfg.Ok() && table.Links() && Index()
      requires table.View(tasks) == RunAll(v, done, outcomes, now, cfg)
      requires Booked(was, CurrentBooks(), v, done, outcomes, now)
      requires Distinct(done) && id !in done && id in v && v[id].slotIndex == current
      requires id in tasks ==> tasks[id] == node
      modifies this`tasks, this`shards, this`pool, this`stats, this`history, this`totalAlertsFired
      modifies cache, table, table.slots, table.linked
      ensures table.Links() && Index() && Nodes() == old(Nodes()) && SubMap(tasks, old(tasks))
      ensures table.linked <= old(table.linked) && Flags(pool) <= old(Flags(pool)) + {false}
      ensures table.View(tasks) == RunAll(v, done + [id], outcomes, now, cfg)
      ensures Booked(was, CurrentBooks(), v, done + [id], outcomes, now)
    {
      RunAllPointwise(v, done, outcomes, now, cfg, id);
      assert (done + [id])[..|done|] == done;
      hide ShardsAre, CacheAgrees, table.Links, PoolFree, Flags, table.Holds, table.View, RunInView, Execute, Logged, Counted, Booked, Distinct;
      BookOne(was, CurrentBooks(), v, done, id, outcomes, now);
      table.HoldsGives(tasks, id);
      ExecuteTask(node, outcomes(node.task.value.id), now, current, id);
    }

    /** The collected tasks run one after the other. */
    method ExecuteAll(sorted: seq<TaskSlot>, outcomes: string -> RunOutcome, now: int, current: int, ghost order: seq<string>)
      requires cfg.Ok() && table.Links() && Index()
      requires |order| == |sorted| && Distinct(order)
      requires forall i {:trigger order[i]} :: 0 <= i < |order| ==>
                 order[i] in tasks && tasks[order[i]] == sorted[i] && sorted[i].slotIndex == current
      modifies this`tasks, this`shards, this`pool, this`stats, this`history, this`totalAlertsFired
      modifies cache, table, table.slots, table.linked
      ensures table.Links() && Index() && Nodes() == old(Nodes()) && Flags(pool) <= old(Flags(pool)) + {false}
      ensures table.View(tasks) == RunAll(old(table.View(tasks)), order, outcomes, now, cfg)
      ensures Booked(old(CurrentBooks()), CurrentBooks(), old(table.View(tasks)), order, outcomes, now)
    {
      hide ShardsAre, CacheAgrees, table.Links, PoolFree, Flags, table.Holds, table.View, Booked, RunInView;
      ghost var v, was := table.View(tasks), CurrentBooks();
      forall j | 0 <= j < |order| ensures order[j] in v && v[order[j]].slotIndex == current {
        table.HoldsGives(tasks, order[j]);
      }
      assert forall i :: 0 <= i < |order| ==> order[i] !in order[..i] && Distinct(order[..i]);
      assert RunAll(v, [], outcomes, now, cfg) == v;
      NothingBooked(was, v, outcomes, now);
      hide Distinct, RunAll, Nodes;
      for i := 0 to |sorted|
        invariant table.Links() && Index() && Nodes() == old(Nodes()) && SubMap(tasks, old(tasks))
        invariant table.linked <= old(table.linked) && Flags(pool) <= old(Flags(pool)) + {false}
        invariant table.View(tasks) == RunAll(v, order[..i], outcomes, now, cfg)
        invariant Booked(was, CurrentBooks(), v, order[..i], outcomes, now)
      {
        ExecuteNext(sorted[i], outcomes, now, current, v, was, order[..i], order[i]);
        assert order[..i + 1] == order[..i] + [order[i]];
      }
      assert order[..|order|] == order;
    }

    /** Collects the due tasks of slot `current` and runs them by priority. */
    method TickSlot(current: int, now: int, outcomes: string -> RunOutcome) returns (ghost order: seq<string>)
      requires cfg.Ok() && table.Links() && Index() && 0 <= current < cfg.slotNum
      modifies this`tasks, this`shards, this`pool, this`stats, this`history, this`totalAlertsFired
      modifies cache, table, table.slots, table.linked
      ensures table.Links() && Index() && Nodes() == old(Nodes()) && Flags(pool) <= old(Flags(pool)) + {false}
      ensures var v := old(table.View(tasks));
              && Distinct(order)
              && (forall id :: id in order <==> id in v && Due(v[id], current, now))
              && (forall i, j :: 0 <= i < j < |order| ==> v[order[i]].task.priority <= v[order[j]].task.priority)
              && table.View(tasks) == RunAll(v, order, outcomes, now, cfg)
              && Booked(old(CurrentBooks()), CurrentBooks(), v, order, outcomes, now)
    {
      hide ShardsAre, CacheAgrees, table.Links, PoolFree, table.Holds, table.View, Booked, RunAll, Distinct, Flags;
      var sorted := CollectByPriority(current, now);
      order := IdsOf(sorted, current, now);
      ghost var v := table.View(tasks);
      forall id | id in tasks ensures id in v && tasks[id].task.Some? && v[id] == tasks[id].Snapshot() {
        table.HoldsGives(tasks, id);
      }
      assert forall i, j :: 0 <= i < j < |order| ==> v[order[i]].task.priority <= v[order[j]].task.priority;
      hide ByPriority;
      ExecuteAll(sorted, outcomes, now, current, order);
    }

    /** One tick: the due tasks of the next slot run, by priority; `order` is the order they ran in. */
    method Tick(now: int, outcomes: string -> RunOutcome) returns (ghost order: seq<string>)
      requires Valid()
      modifies this`tasks, this`shards, this`pool, this`stats, this`history, this`totalAlertsFired, this`currentSlot
      modifies cache, table, table.slots, table.linked
      ensures Valid() && Nodes() == old(Nodes())
      ensures State() == Step(old(State()), Op.Tick(now, outcomes), cfg)
      ensures PoolSpec.PoolStep(old(Pooled()), Op.Tick(now, outcomes), Pooled(), cfg)
      ensures var s := old(State());
              && Distinct(order)
              && (forall id :: id in order <==> id in s.view && Due(s.view[id], CurrentSlot(s, cfg), now))
              && (forall i, j :: 0 <= i < j < |order| ==> s.view[order[i]].task.priority <= s.view[order[j]].task.priority)
              && history == LogAll(old(history), s.view, order, outcomes, now)
              && stats == old(stats) + |Completing(s.view, order, outcomes)|
      ensures totalAlertsFired + FiringIn(old(history)) == old(totalAlertsFired) + FiringIn(history)
    {
      hide ShardsAre, CacheAgrees, table.Links, PoolFree, table.Holds, table.View, StateOk, TickStep, LogAll, RunAll, Distinct, Flags, FiringIn, Completing;
      ghost var s := State();
      currentSlot := currentSlot + 1;
      var current := currentSlot % cfg.slotNum;
      order := TickSlot(current, now, outcomes);
      AnyOrderIsTick(s, order, now, outcomes, cfg);
      TickMovesCursor(s, now, outcomes);
      StepKeepsStateOk(s, Op.Tick(now, outcomes), cfg);
    }

    lemma TickMovesCursor(s: WheelState, now: int, outcomes: string -> RunOutcome)
      requires cfg.Ok()
      ensures TickStep(s, now, outcomes, cfg).cursor == s.cursor + 1
      ensures TickStep(s, now, outcomes, cfg).running == s.running
    {
    }
  }

  const DEFAULT_SLOTS := 60
  const DEFAULT_INTERVAL := 100 * NS_PER_MS
  const SHARD_NUM := 64

  /** New: options that are not given have defaults; the slot number is checked before the interval. */
  method New(slotNum: Option<int>, interval: Option<int>, hash: string -> nat, cacheEnabled: bool, now: int)
    returns (r: Result<TimeWheel>)
    ensures r == Err(SlotsTooFew) <==> slotNum.Some? && slotNum.value <= 0
    ensures r == Err(IntervalTooSmall) <==> (slotNum.Some? ==> slotNum.value > 0) && interval.Some? && interval.value <= 0
    ensures r.Err? ==> r.error in {SlotsTooFew, IntervalTooSmall}
    ensures r.Ok? ==>
              var tw := r.value;
              && fresh(tw) && tw.Valid() && tw.State() == WheelState(map[], 0, false) && tw.Nodes() == {}
              && tw.cfg == Config(if interval.Some? then interval.value else 100_000_000, if slotNum.Some? then slotNum.value else 60)
              && tw.shardNum == 64 && (tw.cache != null <==> cacheEnabled)
  {
    var cfg := Config(if interval.Some? then interval.value else DEFAULT_INTERVAL,
                      if slotNum.Some? then slotNum.value else DEFAULT_SLOTS);
    if cfg.slotNum <= 0 {
      return Err(SlotsTooFew);
    }
    if cfg.interval <= 0 {
      return Err(IntervalTooSmall);
    }
    var tw := new TimeWheel(cfg, SHARD_NUM, hash, cacheEnabled, now);
    return Ok(tw);
  }

  /** Pauses a task and removes it: its node goes to the pool with the flag set. */
  method PauseThenRemove(tw: TimeWheel, id: string)
    requires tw.Valid() && tw.pool == {} && id != "" && id in tw.State().view
    modifies tw, tw.cache, tw.table, tw.table.slots, tw.table.linked
    ensures tw.Valid() && tw.State() == RemoveStep(old(tw.State()), id)
    ensures tw.Nodes() == old(tw.Nodes()) && tw.cache == old(tw.cache)
    ensures tw.pool != {} && TimeWheel.Flags(tw.pool) == {true}
  {
    hide tw.table.Links, tw.ShardsAre, tw.table.Holds, tw.table.View, TimeWheel.CacheAgrees, TimeWheel.PoolFree;
    hide StateOk, tw.Index, TimeWheel.Flags;
    TimeWheel.NoFlags();
    ghost var s := tw.State();
    var e := tw.PauseTask(id);
    assert tw.State().view - {id} == s.view - {id};
    e := tw.RemoveTask(id);
  }

  /** Adds a task, pauses it and removes it again. */
  method PauseAndRemove(tw: TimeWheel, a: Task, now: int)
    requires tw.Valid() && tw.running && tw.pool == {} && IsNormal(a) && a.id !in tw.State().view
    modifies tw, tw.cache, tw.table, tw.table.slots, tw.table.linked
    ensures tw.Valid() && tw.State() == old(tw.State()) && fresh(tw.Nodes() - old(tw.Nodes())) && tw.cache == old(tw.cache)
    ensures tw.pool != {} && TimeWheel.Flags(tw.pool) == {true}
  {
    hide tw.table.Links, tw.ShardsAre, tw.table.Holds, tw.table.View, TimeWheel.CacheAgrees, TimeWheel.PoolFree;
    hide StateOk, tw.table.PlacedByPriority, tw.Index, NewEntry, Normalize, TimeWheel.Flags, tw.MayCarry;
    ghost var s := tw.State();
    NormalIsAccepted(a);
    var e, _ := tw.AddTask(Some(a), now, false);
    assert tw.State().view - {a.id} == s.view;
    PauseThenRemove(tw, a.id);
  }

  lemma NormalIsAccepted(a: Task)
    requires IsNormal(a)
    ensures Normalize(Some(a)) == Ok(a) && a.id != ""
  {
    NormalizeYieldsNormal(Some(a));
  }

  /** A new task can start paused: the node of a task that was removed while paused comes back from
      the pool with its flag. */
  method NewTaskStartsPaused(tw: TimeWheel, a: Task, b: Task, now: int)
    requires tw.Valid() && tw.running && tw.pool == {}
    requires IsNormal(a) && IsNormal(b) && a.id !in tw.State().view && b.id !in tw.State().view
    modifies tw, tw.cache, tw.table, tw.table.slots, tw.table.linked
    ensures tw.Valid() && b.id in tw.State().view
    ensures tw.State().view[b.id] == NewEntry(b, now, tw.cfg, true)
  {
    hide tw.table.Links, tw.ShardsAre, tw.table.Holds, tw.table.View, TimeWheel.CacheAgrees, TimeWheel.PoolFree;
    hide StateOk, tw.table.PlacedByPriority, tw.Index, NewEntry, Normalize, TimeWheel.Flags;
    PauseAndRemove(tw, a, now);
    NormalIsAccepted(b);
    var _, _ := tw.AddTask(Some(b), now, true);
  }
}
