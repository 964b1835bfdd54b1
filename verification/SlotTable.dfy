/** The slot array: one intrusive doubly linked list of task nodes per slot, changed in place. */
module SlotTables {
  import opened TaskModel
  import opened WheelSpec
  import opened Slots

  class SlotTable {
    const slots: array<TaskSlot?>

    /** The nodes of the lists. */
    ghost var linked: set<TaskSlot>

    constructor (slotNum: nat)
      ensures Links() && linked == {} && slots.Length == slotNum && fresh(slots)
    {
      slots := new TaskSlot?[slotNum](_ => null);
      linked := {};
    }

    ghost predicate Links()
      reads this, slots, linked`next, linked`prev, linked`slotIndex, linked`order
    {
      && (forall n {:trigger n in linked} :: n in linked ==> 0 <= n.slotIndex < slots.Length)
      && (forall n {:trigger n.next} :: n in linked && n.next != null ==>
            n.next in linked && n.next.prev == n && n.next.slotIndex == n.slotIndex && n.order < n.next.order)
      && (forall n {:trigger n.prev} :: n in linked ==>
            if n.prev == null then slots[n.slotIndex] == n else n.prev in linked && n.prev.next == n)
      && (forall i {:trigger slots[i]} :: 0 <= i < slots.Length && slots[i] != null ==>
            slots[i] in linked && slots[i].slotIndex == i && slots[i].prev == null)
    }

    // ---------- Slot lists ----------

    ghost function Rest(n: TaskSlot?): set<TaskSlot>
      reads this, linked, n
    {
      if n == null then {} else set m | m in linked && m.order >= n.order
    }

    /** The nodes from `n` to the end of its list. */
    ghost function Walk(n: TaskSlot?): seq<TaskSlot>
      requires Links() && (n != null ==> n in linked)
      reads this, slots, linked
      decreases Rest(n)
    {
      if n == null then []
      else
        assert n in Rest(n) && n !in Rest(n.next);
        [n] + Walk(n.next)
    }

    /** `w` is a run of nodes of slot `i` that ends its list, in label order. */
    ghost predicate EndsList(w: seq<TaskSlot>, i: int)
      reads this, linked
    {
      && (forall j {:trigger w[j]} :: 0 <= j < |w| ==> w[j] in linked)
      && (forall j {:trigger w[j]} :: 0 <= j < |w| ==> w[j].slotIndex == i)
      && (forall j {:trigger w[j].next} :: 0 <= j < |w| - 1 ==> w[j].next == w[j + 1])
      && (w != [] ==> w[|w| - 1].next == null)
      && (forall j, k :: 0 <= j < k < |w| ==> w[j].order < w[k].order)
    }

    lemma {:induction false} WalkEndsList(n: TaskSlot?, i: int)
      requires Links() && (n != null ==> n in linked && n.slotIndex == i)
      ensures EndsList(Walk(n), i)
      ensures n == if Walk(n) == [] then null else Walk(n)[0]
      decreases Rest(n)
    {
      if n != null {
        assert n in Rest(n) && n !in Rest(n.next);
        WalkEndsList(n.next, i);
        PrependKeepsEndsList(n, Walk(n.next), i);
      }
    }

    lemma PrependKeepsEndsList(n: TaskSlot, w: seq<TaskSlot>, i: int)
      requires n in linked && n.slotIndex == i && EndsList(w, i)
      requires n.next == if w == [] then null else w[0]
      requires w != [] ==> n.order < w[0].order
      ensures EndsList([n] + w, i)
    {
    }

    ghost function UpTo(x: TaskSlot): set<TaskSlot>
      reads this, linked, x
    {
      set m | m in linked && m.order <= x.order
    }

    lemma {:induction false} WalkReaches(x: TaskSlot)
      requires Links() && x in linked
      ensures slots[x.slotIndex] != null && x in Walk(slots[x.slotIndex])
      decreases UpTo(x)
    {
      if x.prev != null {
        var p := x.prev;
        assert p.next == x;
        assert x in UpTo(x) && x !in UpTo(p);
        WalkReaches(p);
        var w := Walk(slots[p.slotIndex]);
        WalkEndsList(slots[p.slotIndex], p.slotIndex);
        var j :| 0 <= j < |w| && w[j] == p;
        assert w[j].next == x;
      }
    }

    /** Slot i's list as a sequence. */
    ghost function List(i: int): seq<TaskSlot>
      requires Links() && 0 <= i < slots.Length
      reads this, slots, linked
    {
      Walk(slots[i])
    }

    /** Every slot is a nil-ended list without repetition, doubly linked, that holds exactly the
        linked nodes of that slot in the order of their labels. */
    lemma SlotIsList(i: int)
      requires Links() && 0 <= i < slots.Length
      ensures forall n :: n in List(i) <==> n in linked && n.slotIndex == i
      ensures EndsList(List(i), i)
      ensures forall j, k :: 0 <= j < k < |List(i)| ==> List(i)[j] != List(i)[k]
      ensures forall j {:trigger List(i)[j].prev} :: 1 <= j < |List(i)| ==> List(i)[j].prev == List(i)[j - 1]
      ensures slots[i] == (if List(i) == [] then null else List(i)[0])
      ensures slots[i] != null ==> slots[i].prev == null
    {
      var l := List(i);
      WalkEndsList(slots[i], i);
      forall n | n in linked && n.slotIndex == i ensures n in l {
        WalkReaches(n);
      }
      forall j {:trigger l[j].prev} | 1 <= j < |l| ensures l[j].prev == l[j - 1] {
        assert l[j - 1].next == l[j];
      }
    }

    /** No label lies between a node and its successor. */
    lemma NextIsClosest(n: TaskSlot)
      requires Links() && n in linked
      ensures forall x {:trigger x.order} :: x in linked && x.slotIndex == n.slotIndex && x != n ==>
                x.order < n.order || (n.next != null && n.next.order <= x.order)
    {
      var l := List(n.slotIndex);
      SlotIsList(n.slotIndex);
      forall x {:trigger x.order} | x in linked && x.slotIndex == n.slotIndex && x != n
        ensures x.order < n.order || (n.next != null && n.next.order <= x.order)
      {
        assert n in l && x in l;
        var j :| 0 <= j < |l| && l[j] == n;
        var k :| 0 <= k < |l| && l[k] == x;
        if j < k {
          assert l[j].next == l[j + 1];
        }
      }
    }

    lemma HeadIsFirst(i: int)
      requires Links() && 0 <= i < slots.Length
      ensures forall x {:trigger x.order} :: x in linked && x.slotIndex == i ==>
                slots[i] != null && slots[i].order <= x.order
    {
      SlotIsList(i);
      var l := List(i);
      forall x {:trigger x.order} | x in linked && x.slotIndex == i ensures slots[i] != null && slots[i].order <= x.order {
        assert x in l;
        var k :| 0 <= k < |l| && l[k] == x;
      }
    }

    /** The priority value of a node. */
    static ghost function Value(n: TaskSlot): int
      reads n`task
    {
      if n.task.Some? then n.task.value.priority else 0
    }

    /** No node has a larger priority value than its successor. */
    ghost predicate InOrder()
      reads this, linked`next, linked`task
    {
      forall n {:trigger n.next} :: n in linked && n.next != null && n.next in linked ==> Value(n) <= Value(n.next)
    }

    /** Then every slot list is sorted by priority value. */
    lemma {:induction false} WalkIsSorted(n: TaskSlot?)
      requires Links() && InOrder() && (n != null ==> n in linked)
      ensures forall j, k :: 0 <= j < k < |Walk(n)| ==> Value(Walk(n)[j]) <= Value(Walk(n)[k])
      ensures n != null ==> Walk(n) != [] && Walk(n)[0] == n
      decreases Rest(n)
    {
      if n != null {
        assert n in Rest(n) && n !in Rest(n.next);
        WalkIsSorted(n.next);
        var rest := Walk(n.next);
        hide Links, InOrder, Walk;
        assert forall k :: 0 <= k < |rest| ==> Value(n) <= Value(rest[k]);
      }
    }

    lemma ListsAreSorted(i: int)
      requires Links() && InOrder() && 0 <= i < slots.Length
      ensures forall j, k :: 0 <= j < k < |List(i)| ==> Value(List(i)[j]) <= Value(List(i)[k])
    {
      WalkIsSorted(slots[i]);
    }

    /** Takes `node` out of the list of slot `head`. */
    method Unlink(node: TaskSlot, head: int)
      requires Links() && node in linked && node.slotIndex == head
      modifies this`linked, slots, linked`next, linked`prev
      ensures Links() && linked == old(linked) - {node}
      ensures old(InOrder()) ==> InOrder()
    {
      hide Links, Value;
      Bypass(node, head);
    }

    /** The pointer part of it: the node before points past `node`. */
    method Bypass(node: TaskSlot, head: int)
      requires Links() && node in linked && node.slotIndex == head
      modifies this`linked, slots, linked`next, linked`prev
      ensures Links() && linked == old(linked) - {node}
      ensures forall n {:trigger n.next} :: n in linked ==> n.next == if old(n.next) == node then old(node.next) else old(n.next)
    {
      if node.prev != null {
        node.prev.next := node.next;
      } else {
        slots[head] := node.next;
      }
      if node.next != null {
        node.next.prev := node.prev;
      }
      linked := linked - {node};
    }

    /** Puts an unlinked node at the head of its slot's list. */
    method PushFront(node: TaskSlot)
      requires Links() && node !in linked && 0 <= node.slotIndex < slots.Length
      modifies this`linked, slots, linked`prev, node`next, node`prev, node`order
      ensures Links() && linked == old(linked) + {node}
      ensures node.prev == null && node.next == old(slots[node.slotIndex]) && slots[node.slotIndex] == node
      ensures forall n {:trigger n.next} :: n in old(linked) ==> n.next == old(n.next)
    {
      var first := slots[node.slotIndex];
      node.next := first;
      node.prev := null;
      if first != null {
        first.prev := node;
        node.order := first.order - 1.0;
      }
      slots[node.slotIndex] := node;
      linked := linked + {node};
    }

    /** The linked nodes are the values of `m`, each under the id of its task. */
    ghost predicate Holds(m: map<string, TaskSlot>)
      reads this, linked`task
    {
      && (forall id {:trigger id in m} {:trigger m[id]} :: id in m ==>
            m[id] in linked && m[id].task.Some? && m[id].task.value.id == id)
      && (forall n {:trigger n in linked} {:trigger n.task} :: n in linked ==>
            n.task.Some? && n.task.value.id in m && m[n.task.value.id] == n)
    }

    lemma HoldsGives(m: map<string, TaskSlot>, id: string)
      requires Holds(m) && id in m
      ensures m[id] in linked && m[id].task.Some? && m[id].task.value.id == id && id in View(m)
      ensures View(m)[id] == m[id].Snapshot()
    {
    }

    /** Without tasks every slot is nil. */
    lemma EmptyTable()
      requires Links() && Holds(map[])
      ensures linked == {} && forall i :: 0 <= i < slots.Length ==> slots[i] == null
    {
    }

    /** What the nodes of `m` stand for. */
    ghost function View(m: map<string, TaskSlot>): (v: View)
      requires Holds(m)
      reads this, linked
      ensures v.Keys == m.Keys
    {
      map id | id in m :: m[id].Snapshot()
    }

    /** Every node of slot `i` with a label below `bound` has a priority value below `p`. */
    ghost predicate LowerBefore(i: int, bound: real, p: int)
      reads this, linked
    {
      forall m {:trigger m.order} :: m in linked && m.slotIndex == i && m.order < bound ==>
        m.task.Some? && m.task.value.priority < p
    }

    /** The search loop of AddTask: where a task of priority value `p` goes in the list of slot `i`. */
    method FindPosition(i: int, p: int) returns (prev: TaskSlot?, current: TaskSlot?)
      requires Links() && 0 <= i < slots.Length && forall n :: n in linked ==> n.task.Some?
      ensures if prev == null then current == slots[i] else prev in linked && prev.slotIndex == i && prev.next == current
      ensures current != null ==> current in linked && current.slotIndex == i && p <= current.task.value.priority
      ensures prev != null ==> prev.task.value.priority < p && LowerBefore(i, prev.order, p)
    {
      prev, current := null, slots[i];
      while current != null && current.task.Some? && current.task.value.priority < p
        invariant if prev == null then current == slots[i] else prev in linked && prev.slotIndex == i && prev.next == current
        invariant current != null ==> current in linked && current.slotIndex == i
        invariant prev != null ==> prev.task.value.priority < p && LowerBefore(i, prev.order, p)
        decreases Rest(current)
      {
        assert current in Rest(current) && current !in Rest(current.next);
        if prev == null {
          HeadIsFirst(i);
        } else {
          NextIsClosest(prev);
        }
        prev := current;
        current := current.next;
      }
    }

    lemma LabelBetween(n: TaskSlot, m: TaskSlot?) returns (o: real)
      requires m != null ==> n.order < m.order
      ensures n.order < o && (m != null ==> o < m.order)
    {
      o := if m == null then n.order + 1.0 else (n.order + m.order) / 2.0;
    }

    /** Links an unlinked node behind `prev`. */
    method LinkBehind(node: TaskSlot, prev: TaskSlot)
      requires Links() && node !in linked && prev in linked && prev.slotIndex == node.slotIndex
      modifies this`linked, linked`next, linked`prev, node`next, node`prev, node`order
      ensures Links() && linked == old(linked) + {node}
      ensures node.prev == prev && node.next == old(prev.next)
      ensures prev.next == node && forall n {:trigger n.next} :: n in old(linked) && n != prev ==> n.next == old(n.next)
    {
      var after := prev.next;
      ghost var o := LabelBetween(prev, after);
      node.order := o;
      node.next := after;
      if after != null {
        after.prev := node;
      }
      prev.next := node;
      node.prev := prev;
      linked := linked + {node};
      assert forall n {:trigger n.prev} :: n in old(linked) && n != after ==> n.prev == old(n.prev);
    }

    /** Tasks before `node` in its list have smaller priority values, its successor has not. */
    ghost predicate PlacedByPriority(node: TaskSlot)
      requires Links() && node in linked
      reads this, linked, slots
    {
      && node.task.Some?
      && LowerBefore(node.slotIndex, node.order, node.task.value.priority)
      && (node.next != null ==>
            node.next.task.Some? && node.task.value.priority <= node.next.task.value.priority)
    }

    /** Links `node` where the priority search puts it. */
    method Insert(node: TaskSlot)
      requires Links() && forall n :: n in linked ==> n.task.Some?
      requires node !in linked && node.task.Some? && 0 <= node.slotIndex < slots.Length
      modifies this`linked, slots, linked`next, linked`prev, node`next, node`prev, node`order
      ensures Links() && linked == old(linked) + {node}
      ensures PlacedByPriority(node) && (old(InOrder()) ==> InOrder())
    {
      var prev, current := FindPosition(node.slotIndex, node.task.value.priority);
      if prev == null {
        HeadIsFirst(node.slotIndex);
        PushFront(node);
        HeadIsFirst(node.slotIndex);
      } else {
        NextIsClosest(prev);
        LinkBehind(node, prev);
      }
    }

    /** The same, seen from the map `m` of the linked nodes: it gains one entry. */
    method LinkByPriority(node: TaskSlot, ghost m: map<string, TaskSlot>)
      requires Links() && Holds(m)
      requires node !in linked && node.task.Some? && node.task.value.id !in m && 0 <= node.slotIndex < slots.Length
      modifies this`linked, slots, linked`next, linked`prev, node`next, node`prev, node`order
      ensures Links() && linked == old(linked) + {node}
      ensures Holds(m[node.task.value.id := node])
      ensures View(m[node.task.value.id := node]) == old(View(m))[node.task.value.id := node.Snapshot()]
      ensures node.Snapshot() == old(node.Snapshot())
      ensures PlacedByPriority(node) && (old(InOrder()) ==> InOrder())
    {
      hide Links, PlacedByPriority, InOrder;
      Insert(node);
    }

    /** Takes the node of `id` out of its list, seen from the map: the entry goes. */
    method Detach(node: TaskSlot, head: int, ghost m: map<string, TaskSlot>, ghost id: string)
      requires Links() && Holds(m) && id in m && m[id] == node && node.slotIndex == head
      modifies this`linked, slots, linked`next, linked`prev
      ensures Links() && linked == old(linked) - {node}
      ensures Holds(m - {id})
      ensures View(m - {id}) == old(View(m)) - {id}
      ensures node.next == null && node.prev == null && (old(InOrder()) ==> InOrder())
    {
      hide InOrder;
      assert node in linked;
      Unlink(node, head);
      ClearPointers(node);
      hide Links;
    }

    method ClearPointers(node: TaskSlot)
      requires Links() && node !in linked
      modifies node`next, node`prev
      ensures Links() && node.next == null && node.prev == null && InOrder() == old(InOrder())
    {
      node.next := null;
      node.prev := null;
    }

    /** The pointer part of rescheduling: out of the list of slot `head`, to the head of slot `i`. */
    method Relink(node: TaskSlot, head: int, i: int)
      requires Links() && node in linked && node.slotIndex == head && 0 <= i < slots.Length
      modifies this`linked, slots, linked`next, linked`prev, node`slotIndex, node`order
      ensures Links() && linked == old(linked) && slots[i] == node && node.slotIndex == i
      ensures old(InOrder()) ==> (InOrder() <==> node.next == null || Value(node) <= Value(node.next))
    {
      hide Value;
      Unlink(node, head);
      Retarget(node, i);
      hide Links;
      PushFront(node);
    }

    /** The same, seen from the map: only the entry's slot changes. */
    method Move(node: TaskSlot, head: int, i: int, ghost m: map<string, TaskSlot>, ghost id: string)
      requires Links() && Holds(m) && id in m && m[id] == node && node.slotIndex == head && 0 <= i < slots.Length
      modifies this`linked, slots, linked`next, linked`prev, node`slotIndex, node`order
      ensures Links() && linked == old(linked) && slots[i] == node
      ensures old(InOrder()) ==> (InOrder() <==> node.next == null || Value(node) <= Value(node.next))
      ensures Holds(m)
      ensures View(m) == old(View(m))[id := old(View(m))[id].(slotIndex := i)]
    {
      hide Links, InOrder, Value;
      Relink(node, head, i);
    }

    method Retarget(node: TaskSlot, i: int)
      requires Links() && node !in linked
      modifies node`slotIndex
      ensures Links() && node.slotIndex == i && InOrder() == old(InOrder())
    {
      node.slotIndex := i;
    }

    // ---------- Fields that are not links ----------

    method SetPaused(node: TaskSlot, paused: bool, ghost m: map<string, TaskSlot>, ghost id: string)
      requires Links() && Holds(m) && id in m && m[id] == node
      modifies node`paused
      ensures Links() && Holds(m)
      ensures View(m) == old(View(m))[id := old(node.Snapshot()).(paused := paused)]
    {
      hide Links;
      node.paused := paused;
    }

    method SetRunAt(node: TaskSlot, runAt: int, ghost m: map<string, TaskSlot>, ghost id: string)
      requires Links() && Holds(m) && id in m && m[id] == node
      modifies node`runAt
      ensures Links() && Holds(m)
      ensures View(m) == old(View(m))[id := old(node.Snapshot()).(runAt := runAt)]
    {
      hide Links;
      node.runAt := runAt;
    }

    method SetResumed(node: TaskSlot, runAt: int, ghost m: map<string, TaskSlot>, ghost id: string)
      requires Links() && Holds(m) && id in m && m[id] == node
      modifies node`paused, node`runAt
      ensures Links() && Holds(m)
      ensures View(m) == old(View(m))[id := old(node.Snapshot()).(paused := false, runAt := runAt)]
    {
      hide Links;
      node.paused := false;
      node.runAt := runAt;
    }
  }
}
