/** The node of the slot lists and the lookup cache. */
module Slots {
  import opened TaskModel
  import opened Alerts
  import opened WheelSpec

  /** A task node of an intrusive doubly linked list. `order` is a ghost label that grows along
      every list, which keeps the lists acyclic. */
  class TaskSlot {
    var task: Option<Task>
    var next: TaskSlot?
    var prev: TaskSlot?
    var slotIndex: int
    var addedAt: int
    var runAt: int
    var executed: int
    var alertState: AlertState
    var pendingSince: Option<int>
    var lastFiredAt: Option<int>
    var lastResult: AlarmResult
    var paused: bool
    ghost var order: real

    constructor ()
      ensures task.None? && next == null && prev == null && !paused
    {
      task, next, prev, slotIndex := None, null, null, 0;
      addedAt, runAt, executed, paused := 0, 0, 0, false;
      alertState, pendingSince, lastFiredAt, lastResult := Pending, None, None, NO_RESULT;
      order := 0.0;
    }

    function Track(): AlertTrack
      reads this
    {
      AlertTrack(alertState, pendingSince, lastFiredAt)
    }

    /** The entry this node stands for. */
    function Snapshot(): Entry
      requires task.Some?
      reads this
    {
      Entry(task.value, slotIndex, addedAt, runAt, executed, Track(), lastResult, paused)
    }

    /** What AddTask writes into a node; `paused` keeps the value it had. */
    method Fill(t: Task, slot: int, now: int)
      modifies this
      ensures task == Some(t) && next == null && prev == null && slotIndex == slot
      ensures Snapshot() == Entry(t, slot, now, now + t.interval, 0, FRESH_TRACK, NO_RESULT, old(paused))
    {
      task := Some(t);
      slotIndex := slot;
      addedAt := now;
      runAt := now + t.interval;
      executed := 0;
      next := null;
      prev := null;
      alertState := Pending;
      pendingSince := None;
      lastFiredAt := None;
      lastResult := NO_RESULT;
    }

    method ComputeAlertState(isFiring: bool, forDuration: int, now: int) returns (s: AlertState)
      modifies this`pendingSince, this`lastFiredAt
      ensures AlertTrack(s, pendingSince, lastFiredAt) == Compute(old(Track()), isFiring, forDuration, now)
    {
      if isFiring {
        if alertState == Firing {
          return Firing;
        }
        if forDuration <= 0 {
          lastFiredAt, pendingSince := Some(now), None;
          return Firing;
        }
        if pendingSince.None? {
          pendingSince := Some(now);
          return Pending;
        }
        if now - pendingSince.value >= forDuration {
          lastFiredAt, pendingSince := Some(now), None;
          return Firing;
        }
        return Pending;
      }
      pendingSince := None;
      return if alertState == Firing then Resolved else Pending;
    }
  }

  const DEFAULT_CACHE_SIZE := 100000
  const CLEANUP_INTERVAL := 300_000 * NS_PER_MS
  const CLEANUP_COUNT := 50
  const EVICT_COUNT := 10

  /** How many of `n` items an eviction of `count` leaves. */
  function Remaining(n: nat, count: nat): nat {
    if n <= count then 0 else n - count
  }

  predicate SubMap<K, V(==)>(m: map<K, V>, n: map<K, V>) {
    forall k :: k in m ==> k in n && m[k] == n[k]
  }

  /** The lookup cache. Which items it evicts is up to the iteration order of a map. */
  class TaskCache {
    var items: map<string, TaskSlot>
    var hits: nat
    var misses: nat
    var expired: nat
    var lastCleanup: int
    const maxSize: int

    predicate Valid()
      reads this
    {
      0 < maxSize && |items| <= maxSize
    }

    constructor (maxSize: int, now: int)
      ensures Valid() && items == map[]
      ensures this.maxSize == if maxSize <= 0 then 100000 else maxSize
    {
      items, hits, misses, expired, lastCleanup := map[], 0, 0, 0, now;
      this.maxSize := if maxSize <= 0 then DEFAULT_CACHE_SIZE else maxSize;
    }

    method Get(key: string) returns (node: TaskSlot?)
      modifies this`hits, this`misses
      ensures node == if key in items then items[key] else null
      ensures hits == old(hits) + if node != null then 1 else 0
      ensures misses == old(misses) + if node == null then 1 else 0
    {
      if key in items {
        hits := hits + 1;
        return items[key];
      }
      misses := misses + 1;
      return null;
    }

    /** `kept` are the items that cleanup and eviction leave. */
    method Set(key: string, node: TaskSlot, now: int) returns (ghost kept: map<string, TaskSlot>)
      requires Valid()
      modifies this
      ensures Valid()
      ensures items == kept[key := node] && SubMap(kept, old(items))
      ensures var due := now - old(lastCleanup) >= 300_000_000_000;
              var n := if due then if |old(items)| <= 50 then 0 else |old(items)| - 50 else |old(items)|;
              && lastCleanup == (if due then now else old(lastCleanup))
              && |kept| == (if n < maxSize then n else if n <= 10 then 0 else n - 10)
              && expired == old(expired) + (if n >= maxSize then 1 else 0)
    {
      CheckAndCleanup(now);
      if |items| >= maxSize {
        EvictItems(EVICT_COUNT);
        expired := expired + 1;
      }
      kept := items;
      items := items[key := node];
    }

    method Delete(key: string)
      requires Valid()
      modifies this`items
      ensures Valid() && items == old(items) - {key}
    {
      items := items - {key};
      assert items.Keys <= old(items.Keys);
      SubsetCard(items.Keys, old(items.Keys));
    }

    method CheckAndCleanup(now: int)
      modifies this`items, this`lastCleanup
      ensures SubMap(items, old(items))
      ensures if now - old(lastCleanup) >= CLEANUP_INTERVAL
              then |items| == Remaining(|old(items)|, CLEANUP_COUNT) && lastCleanup == now
              else items == old(items) && lastCleanup == old(lastCleanup)
    {
      if now - lastCleanup >= CLEANUP_INTERVAL {
        EvictItems(CLEANUP_COUNT);
        lastCleanup := now;
      }
    }

    /** Empties the cache if it has at most `count` items, otherwise removes exactly `count`. */
    method EvictItems(count: nat)
      requires count > 0
      modifies this`items
      ensures SubMap(items, old(items))
      ensures |items| == Remaining(|old(items)|, count)
    {
      if |items| <= count {
        items := map[];
        return;
      }
      var evicted := 0;
      while evicted < count
        invariant 0 <= evicted <= count
        invariant SubMap(items, old(items)) && |items| == |old(items)| - evicted
      {
        var k :| k in items.Keys;
        assert (items - {k}).Keys == items.Keys - {k};
        items := items - {k};
        evicted := evicted + 1;
      }
    }
  }

  lemma SubsetCard<T>(a: set<T>, b: set<T>)
    requires a <= b
    ensures |a| <= |b|
  {
    assert b == a + (b - a);
  }
}
