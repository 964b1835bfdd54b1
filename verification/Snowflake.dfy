/** The 64-bit identifiers: 42 bits of time over 10 bits of node over 12 bits of sequence. */
module Snowflake {
  import opened TaskModel

  const WORD: int := 0x1_0000_0000_0000_0000
  /** 2^41 ms, the promised range of times, and 2^42 ms. */
  const HALF_RANGE: int := 0x200_0000_0000
  const RANGE: int := 0x400_0000_0000
  const NODE_MAX: int := 1023
  const SEQ_MAX: int := 4095
  const NODE_UNIT: int := 4096
  const TIME_UNIT: int := 4194304
  const CUSTOM_EPOCH: int := 1704067200000

  // ---------- Signed 64-bit integers ----------

  /** The clock readings of one call: at least one. */
  type Readings = s: seq<Int64> | s != [] witness [0]

  type Int64 = x: int | -0x8000_0000_0000_0000 <= x < 0x8000_0000_0000_0000

  /** The signed integer with the same last 64 bits. */
  function Wrap(x: int): Int64 {
    var low := x % WORD;
    if low < WORD / 2 then low else low - WORD
  }

  function Pow2(k: nat): (p: int)
    ensures p > 0
  {
    if k == 0 then 1 else 2 * Pow2(k - 1)
  }

  function ShiftLeft(x: Int64, k: nat): Int64 {
    Wrap(x * Pow2(k))
  }

  /** The bitwise or of two signed integers of `bits` + 1 bits. */
  function Or(x: int, y: int, bits: nat): int
    decreases bits
  {
    if bits == 0 then (if x < 0 || y < 0 then -1 else 0)
    else (if x % 2 == 1 || y % 2 == 1 then 1 else 0) + 2 * Or(x / 2, y / 2, bits - 1)
  }

  /** Bit `k` of a signed integer. */
  predicate Bit(x: int, k: nat)
    decreases k
  {
    if k == 0 then x % 2 == 1 else Bit(x / 2, k - 1)
  }

  lemma {:induction false} OrIsBitwise(x: int, y: int, bits: nat, k: nat)
    requires k < bits
    ensures Bit(Or(x, y, bits), k) <==> Bit(x, k) || Bit(y, k)
    decreases k
  {
    if k > 0 {
      OrIsBitwise(x / 2, y / 2, bits - 1, k - 1);
    }
  }

  /** The bitwise and with 2^k - 1. */
  function Mask(x: int, k: nat): nat {
    x % Pow2(k)
  }

  function ShiftRight(x: int, k: nat): int {
    x / Pow2(k)
  }

  lemma {:induction false} OrZero(x: int, bits: nat)
    requires -Pow2(bits) <= x < Pow2(bits)
    ensures Or(x, 0, bits) == x
    decreases bits
  {
    if bits > 0 {
      OrZero(x / 2, bits - 1);
    }
  }

  /** An integer and one that fits below its last `k` zero bits add up. */
  lemma {:induction false} OrAdds(x: int, y: nat, k: nat, bits: nat)
    requires k <= bits && y < Pow2(k)
    requires -Pow2(bits - k) <= x < Pow2(bits - k)
    ensures Or(x * Pow2(k), y, bits) == x * Pow2(k) + y
  {
    if k == 0 {
      OrZero(x, bits);
    } else {
      OrAdds(x, y / 2, k - 1, bits - 1);
      var half := x * Pow2(k - 1);
      assert x * Pow2(k) == 2 * half;
      assert (2 * half) / 2 == half && (2 * half) % 2 == 0;
    }
  }

  lemma Powers()
    ensures Pow2(12) == NODE_UNIT && Pow2(10) == 1024 && Pow2(22) == TIME_UNIT
    ensures Pow2(41) == HALF_RANGE && Pow2(51) == 0x8_0000_0000_0000 && Pow2(63) == WORD / 2
  {
    assert Pow2(10) == 1024;
    assert Pow2(20) == 1024 * 1024;
    assert Pow2(30) == 1024 * 1024 * 1024;
    assert Pow2(40) == 1024 * 1024 * 1024 * 1024;
    assert Pow2(50) == 1024 * 1024 * 1024 * 1024 * 1024;
    assert Pow2(60) == 1024 * 1024 * 1024 * 1024 * 1024 * 1024;
  }

  // ---------- Packing and parsing ----------

  /** What a node remembers of its last identifier. */
  datatype Mark = Mark(time: Int64, sequence: Int64)

  predicate IsNode(node: Int64) {
    0 <= node <= NODE_MAX
  }

  /** A mark that a node can have: no time before the epoch, twelve bits of sequence. */
  predicate Proper(m: Mark) {
    0 <= m.time && 0 <= m.sequence <= SEQ_MAX
  }

  function Pack(m: Mark, node: Int64): int {
    Or(Or(ShiftLeft(m.time, 22), ShiftLeft(node, 12), 63), m.sequence, 63)
  }

  /** The time as the identifier holds it: a signed number of 42 bits. */
  function Stamp(time: int): int {
    var low := time % RANGE;
    if low < HALF_RANGE then low else low - RANGE
  }

  lemma ShiftedTime(time: Int64)
    ensures ShiftLeft(time, 22) == Stamp(time) * TIME_UNIT
    ensures -HALF_RANGE <= Stamp(time) < HALF_RANGE
  {
    Powers();
    var q, low := time / RANGE, time % RANGE;
    assert time * TIME_UNIT == q * WORD + low * TIME_UNIT;
    assert 0 <= low * TIME_UNIT < WORD;
    SameRest(q, low * TIME_UNIT);
  }

  lemma SameRest(q: int, r: int)
    requires 0 <= r < WORD
    ensures (q * WORD + r) % WORD == r
  {
  }

  /** The fields do not overlap. */
  lemma PackIsSum(m: Mark, node: Int64)
    requires Proper(m) && IsNode(node)
    ensures Pack(m, node) == Stamp(m.time) * TIME_UNIT + node * NODE_UNIT + m.sequence
    ensures -WORD / 2 <= Pack(m, node) < WORD / 2
  {
    hide Or, Pow2, ShiftLeft, Stamp;
    Powers();
    ShiftedTime(m.time);
    ShiftedNode(node);
    OrAdds(Stamp(m.time), node * NODE_UNIT, 22, 63);
    OrAdds(Stamp(m.time) * 1024 + node, m.sequence, 12, 63);
    assert (Stamp(m.time) * 1024 + node) * NODE_UNIT == Stamp(m.time) * TIME_UNIT + node * NODE_UNIT;
  }

  lemma ShiftedNode(node: Int64)
    requires IsNode(node)
    ensures ShiftLeft(node, 12) == node * NODE_UNIT
  {
    Powers();
  }

  datatype Parts = Parts(timestamp: int, node: int, sequence: int)

  function GetTimestamp(id: int): int {
    ShiftRight(id, 22) + CUSTOM_EPOCH
  }

  function GetNodeID(id: int): int {
    Mask(ShiftRight(id, 12), 10)
  }

  function GetSequence(id: int): int {
    Mask(id, 12)
  }

  /** Negative identifiers are refused. */
  function ParseID(id: int): Option<Parts> {
    if id < 0 then None else Some(Parts(GetTimestamp(id), GetNodeID(id), GetSequence(id)))
  }

  /** Node and sequence always come back; the time comes back as far as 42 signed bits go. */
  lemma FieldsComeBack(m: Mark, node: Int64)
    requires Proper(m) && IsNode(node)
    ensures GetNodeID(Pack(m, node)) == node
    ensures GetSequence(Pack(m, node)) == m.sequence
    ensures GetTimestamp(Pack(m, node)) == Stamp(m.time) + CUSTOM_EPOCH
  {
    hide Or, Pow2, ShiftLeft, Stamp, Pack;
    Powers();
    PackIsSum(m, node);
    var t := Stamp(m.time);
    Quotient(t * 1024 + node, m.sequence, NODE_UNIT);
    Quotient(t, node, 1024);
    Quotient(t, node * NODE_UNIT + m.sequence, TIME_UNIT);
  }

  lemma Quotient(q: int, r: int, unit: int)
    requires 0 <= r < unit
    ensures (q * unit + r) / unit == q && (q * unit + r) % unit == r
  {
    var n := q * unit + r;
    var d := n / unit - q;
    assert d * unit == r - n % unit;
    AtLeastOne(d, unit);
    AtLeastOne(-d, unit);
  }

  lemma AtLeastOne(d: int, unit: int)
    requires unit > 0
    ensures d >= 1 ==> d * unit >= unit
  {
  }

  /** ParseID gives back the clock reading, the node and the sequence exactly when the node counts
      from the package's own epoch and the time fits in 41 bits. */
  lemma ParseRecoversIff(m: Mark, node: Int64, epoch: Int64, reading: Int64)
    requires Proper(m) && IsNode(node) && m.time == reading - epoch && m.time < RANGE
    ensures ParseID(Pack(m, node)) == Some(Parts(reading, node, m.sequence)) <==> epoch == 1704067200000 && m.time < HALF_RANGE
    ensures ParseID(Pack(m, node)).None? <==> m.time >= HALF_RANGE
  {
    hide Pack, GetTimestamp, GetNodeID, GetSequence;
    PackIsSum(m, node);
    FieldsComeBack(m, node);
    assert Stamp(m.time) == if m.time < HALF_RANGE then m.time else m.time - RANGE;
    hide Stamp;
  }

  /** Identifiers of different nodes differ, however the clocks go. */
  lemma NodesNeverCollide(m: Mark, node: Int64, m': Mark, node': Int64)
    requires Proper(m) && IsNode(node) && Proper(m') && IsNode(node')
    ensures Pack(m, node) == Pack(m', node') ==> node == node' && m.sequence == m'.sequence && m.time % RANGE == m'.time % RANGE
  {
    hide Pack, GetTimestamp, GetNodeID, GetSequence;
    FieldsComeBack(m, node);
    FieldsComeBack(m', node');
  }

  // ---------- The generator ----------

  /** `Waiting` is a call that still waits for the next millisecond when its clock readings end. */
  datatype Outcome = Issued(id: int) | ClockMovedBack | Waiting

  /** The first time after `last`, if the clock shows one. */
  function WaitFor(last: Int64, epoch: Int64, readings: seq<Int64>): Option<Int64> {
    if readings == [] then None
    else
      var now := Wrap(readings[0] - epoch);
      if last < now then Some(now) else WaitFor(last, epoch, readings[1..])
  }

  /** The mark of the next identifier, when the clock reads `readings`. */
  function Next(m: Mark, epoch: Int64, readings: Readings): Option<Mark>
    requires Proper(m)
  {
    var now := Wrap(readings[0] - epoch);
    if now < m.time then None
    else if now > m.time then Some(Mark(now, 0))
    else if m.sequence < SEQ_MAX then Some(Mark(now, m.sequence + 1))
    else
      var later := WaitFor(m.time, epoch, readings[1..]);
      if later.Some? then Some(Mark(later.value, 0)) else None
  }

  predicate Before(x: Mark, y: Mark) {
    x.time < y.time || (x.time == y.time && x.sequence < y.sequence)
  }

  lemma {:induction false} WaitedForLater(last: Int64, epoch: Int64, readings: seq<Int64>)
    ensures WaitFor(last, epoch, readings).Some? ==> last < WaitFor(last, epoch, readings).value
    ensures WaitFor(last, epoch, readings).None? <==> forall k :: 0 <= k < |readings| ==> Wrap(readings[k] - epoch) <= last
  {
    hide Wrap;
    if readings != [] {
      WaitedForLater(last, epoch, readings[1..]);
      assert forall k :: 0 < k < |readings| ==> readings[k] == readings[1..][k - 1];
    }
  }

  /** Every identifier comes after the one before, whatever the clock does. */
  lemma NextIsLater(m: Mark, epoch: Int64, readings: Readings)
    requires Proper(m) && Next(m, epoch, readings).Some?
    ensures Before(m, Next(m, epoch, readings).value) && Proper(Next(m, epoch, readings).value)
  {
    hide Wrap;
    WaitedForLater(m.time, epoch, readings[1..]);
  }

  class Node {
    const nodeID: Int64
    const epoch: Int64
    var lastTime: Int64
    var sequence: Int64

    ghost function Last(): Mark
      reads this
    {
      Mark(lastTime, sequence)
    }

    ghost predicate Valid()
      reads this
    {
      Proper(Last()) && IsNode(nodeID)
    }

    constructor (nodeID: Int64, epoch: Int64)
      requires IsNode(nodeID)
      ensures Valid() && this.nodeID == nodeID && this.epoch == epoch && Last() == Mark(0, 0)
    {
      this.nodeID, this.epoch := nodeID, epoch;
      lastTime, sequence := 0, 0;
    }

    /** Issues an identifier; `readings` are the clock readings of this call. */
    method Generate(readings: Readings) returns (r: Outcome)
      requires Valid()
      modifies this
      ensures Valid()
      ensures r.ClockMovedBack? <==> Wrap(readings[0] - epoch) < old(lastTime)
      ensures r.Issued? <==> Next(old(Last()), epoch, readings).Some?
      ensures r.Issued? ==> Last() == Next(old(Last()), epoch, readings).value && r.id == Pack(Last(), nodeID)
      ensures r.ClockMovedBack? ==> Last() == old(Last())
    {
      hide Wrap, ShiftLeft, Or;
      MaskedSequence(sequence);
      var now := Wrap(readings[0] - epoch);
      if now < lastTime {
        return ClockMovedBack;
      }
      if now == lastTime {
        sequence := Mask(sequence + 1, 12);
        if sequence == 0 {
          var k := 1;
          while now <= lastTime
            invariant 1 <= k <= |readings| && Last() == Mark(old(lastTime), 0)
            invariant WaitFor(lastTime, epoch, readings[1..]) ==
                      if lastTime < now then Some(now) else WaitFor(lastTime, epoch, readings[k..])
            decreases |readings| - k, lastTime - now
          {
            if k == |readings| {
              return Waiting;
            }
            now := Wrap(readings[k] - epoch);
            assert readings[k..][1..] == readings[k + 1..];
            k := k + 1;
          }
        }
      } else {
        sequence := 0;
      }
      lastTime := now;
      r := Issued(Or(Or(ShiftLeft(now, 22), ShiftLeft(nodeID, 12), 63), sequence, 63));
    }
  }

  lemma MaskedSequence(s: int)
    requires 0 <= s <= SEQ_MAX
    ensures Mask(s + 1, 12) == if s == SEQ_MAX then 0 else s + 1
  {
    Powers();
  }

  /** A node is made only for the node numbers that fit. */
  method NewNode(nodeID: Int64, epoch: Int64) returns (n: Option<Node>)
    ensures n.Some? <==> 0 <= nodeID <= 1023
    ensures n.Some? ==> fresh(n.value) && n.value.Valid() && n.value.nodeID == nodeID && n.value.epoch == epoch && n.value.Last() == Mark(0, 0)
  {
    if nodeID < 0 || nodeID > NODE_MAX {
      return None;
    }
    var node := new Node(nodeID, epoch);
    return Some(node);
  }

  // ---------- Whole runs ----------

  /** The marks of the identifiers that a run of calls issues. A refused call changes nothing; a call
      that still waits is the last. */
  function Marks(m: Mark, epoch: Int64, calls: seq<Readings>): seq<Mark>
    requires Proper(m)
    decreases |calls|
  {
    if calls == [] then []
    else
      var next := Next(m, epoch, calls[0]);
      if next.Some? then
        NextIsLater(m, epoch, calls[0]);
        [next.value] + Marks(next.value, epoch, calls[1..])
      else if Wrap(calls[0][0] - epoch) < m.time then Marks(m, epoch, calls[1..])
      else []
  }

  /** A call with the clock readings `rs` takes a node from its last mark `m` to `m'`: a clock that went
      back leaves it, a later one starts a new sequence, the same one goes on with it, and after 4096
      identifiers the first later reading counts. */
  ghost predicate Advances(m: Mark, epoch: Int64, rs: Readings, m': Mark) {
    var now := Wrap(rs[0] - epoch);
    if now < m.time then m' == m
    else if now > m.time then m' == Mark(now, 0)
    else if m.sequence < 4095 then m' == Mark(now, m.sequence + 1)
    else exists j :: 0 < j < |rs| && m' == Mark(Wrap(rs[j] - epoch), 0) && FirstAfter(m.time, epoch, rs, j)
  }

  ghost predicate FirstAfter(last: Int64, epoch: Int64, rs: seq<Int64>, j: nat)
    requires j < |rs|
  {
    last < Wrap(rs[j] - epoch) && forall i :: 0 < i < j ==> Wrap(rs[i] - epoch) <= last
  }

  lemma {:induction false} WaitForIsFirst(last: Int64, epoch: Int64, rs: seq<Int64>, j: nat)
    requires j < |rs| && last < Wrap(rs[j] - epoch)
    requires forall i :: 0 <= i < j ==> Wrap(rs[i] - epoch) <= last
    ensures WaitFor(last, epoch, rs) == Some(Wrap(rs[j] - epoch))
  {
    hide Wrap;
    if j > 0 {
      assert Wrap(rs[0] - epoch) <= last;
      assert forall i :: 0 <= i < j ==> rs[1..][i] == rs[i + 1];
      WaitForIsFirst(last, epoch, rs[1..], j - 1);
    }
  }

  lemma AdvancesIsNext(m: Mark, epoch: Int64, rs: Readings, m': Mark)
    requires Proper(m) && Advances(m, epoch, rs, m')
    ensures Next(m, epoch, rs) == if m' == m then None else Some(m')
    ensures m' == m ==> Wrap(rs[0] - epoch) < m.time
    ensures Proper(m')
  {
    hide Wrap;
    if Wrap(rs[0] - epoch) == m.time && m.sequence >= 4095 {
      var j :| 0 < j < |rs| && m' == Mark(Wrap(rs[j] - epoch), 0) && FirstAfter(m.time, epoch, rs, j);
      assert forall i :: 0 <= i < j - 1 ==> rs[1..][i] == rs[i + 1];
      assert rs[1..][j - 1] == rs[j];
      WaitForIsFirst(m.time, epoch, rs[1..], j - 1);
    }
  }

  ghost predicate IsRun(ms: seq<Mark>, epoch: Int64, calls: seq<Readings>) {
    |ms| == |calls| + 1 && Proper(ms[0]) && forall k :: 0 <= k < |calls| ==> Advances(ms[k], epoch, calls[k], ms[k + 1])
  }

  /** In a run, exactly the calls that move the mark issue an identifier, each for its new mark. */
  lemma {:induction false} MarksFollow(ms: seq<Mark>, epoch: Int64, calls: seq<Readings>)
    requires IsRun(ms, epoch, calls)
    ensures forall x :: x in Marks(ms[0], epoch, calls) <==> exists k :: 0 <= k < |calls| && ms[k + 1] == x && ms[k] != x
    decreases |calls|
  {
    hide Advances, Next, Wrap;
    if calls != [] {
      assert Advances(ms[0], epoch, calls[0], ms[0 + 1]);
      AdvancesIsNext(ms[0], epoch, calls[0], ms[1]);
      forall k | 0 <= k < |calls| - 1 ensures Advances(ms[1..][k], epoch, calls[1..][k], ms[1..][k + 1]) {
        assert Advances(ms[k + 1], epoch, calls[k + 1], ms[k + 1 + 1]);
      }
      MarksFollow(ms[1..], epoch, calls[1..]);
      var rest := Marks(ms[1], epoch, calls[1..]);
      forall x ensures x in Marks(ms[0], epoch, calls) <==> (x in rest || (x == ms[1] && ms[0] != ms[1])) {
      }
      forall x ensures x in rest <==> exists k :: 1 <= k < |calls| && ms[k + 1] == x && ms[k] != x {
        if x in rest {
          var k :| 0 <= k < |calls| - 1 && ms[1..][k + 1] == x && ms[1..][k] != x;
          assert ms[(k + 1) + 1] == x && ms[k + 1] != x;
        }
        if k :| 1 <= k < |calls| && ms[k + 1] == x && ms[k] != x {
          assert ms[1..][(k - 1) + 1] == x && ms[1..][k - 1] != x;
        }
      }
    }
  }

  ghost predicate InOrder(ms: seq<Mark>) {
    forall i, j :: 0 <= i < j < |ms| ==> Before(ms[i], ms[j])
  }

  /** Through any run the marks grow, though the clock may step back and sequences may wrap. */
  lemma {:induction false} MarksGrow(m: Mark, epoch: Int64, calls: seq<Readings>)
    requires Proper(m)
    ensures InOrder(Marks(m, epoch, calls))
    ensures forall x <- Marks(m, epoch, calls) :: Before(m, x) && Proper(x)
    decreases |calls|
  {
    hide Wrap, Next;
    if calls != [] {
      var next := Next(m, epoch, calls[0]);
      if next.Some? {
        NextIsLater(m, epoch, calls[0]);
        MarksGrow(next.value, epoch, calls[1..]);
      } else {
        MarksGrow(m, epoch, calls[1..]);
      }
    }
  }

  function Ids(ms: seq<Mark>, node: Int64): seq<int> {
    seq(|ms|, i requires 0 <= i < |ms| => Pack(ms[i], node))
  }

  /** Two identifiers of one node stand in the order of their marks as long as the first stamp does
      not exceed the second. */
  lemma OrderIff(x: Mark, y: Mark, node: Int64)
    requires Proper(x) && Proper(y) && IsNode(node)
    ensures Pack(x, node) < Pack(y, node) <==>
              Stamp(x.time) < Stamp(y.time) || (Stamp(x.time) == Stamp(y.time) && x.sequence < y.sequence)
  {
    hide Pack, Stamp;
    PackIsSum(x, node);
    PackIsSum(y, node);
  }

  lemma IdFacts(ms: seq<Mark>, node: Int64, i: int, j: int)
    requires IsNode(node) && InOrder(ms) && (forall x <- ms :: Proper(x) && x.time < RANGE) && 0 <= i < |ms| && 0 <= j < |ms|
    ensures 0 <= Pack(ms[i], node) <==> ms[i].time < HALF_RANGE
    ensures ms[i].time < HALF_RANGE && ms[j].time < HALF_RANGE && i < j ==> Pack(ms[i], node) < Pack(ms[j], node)
  {
    hide Pack;
    PackIsSum(ms[i], node);
    assert Proper(ms[j]);
    OrderIff(ms[i], ms[j], node);
  }

  /** In the first 2^42 ms of a node's epoch, its identifiers are positive and strictly increasing exactly
      when none is issued after 2^41 ms. */
  lemma IdsIncreaseIff(m: Mark, epoch: Int64, calls: seq<Readings>, node: Int64)
    requires Proper(m) && IsNode(node)
    requires forall x <- Marks(m, epoch, calls) :: x.time < RANGE
    ensures (forall x <- Marks(m, epoch, calls) :: x.time < HALF_RANGE) <==> PositiveAndIncreasing(Ids(Marks(m, epoch, calls), node))
  {
    var ms := Marks(m, epoch, calls);
    var ids := Ids(ms, node);
    MarksGrow(m, epoch, calls);
    hide Pack, Marks;
    forall i, j | 0 <= i < |ms| && 0 <= j < |ms|
      ensures (0 <= ids[i] <==> ms[i].time < HALF_RANGE)
      ensures ms[i].time < HALF_RANGE && ms[j].time < HALF_RANGE && i < j ==> ids[i] < ids[j]
    {
      IdFacts(ms, node, i, j);
    }
    if PositiveAndIncreasing(ids) {
      forall x <- ms ensures x.time < HALF_RANGE {
        var i :| 0 <= i < |ms| && ms[i] == x;
        assert 0 <= ids[i];
      }
    }
  }

  predicate PositiveAndIncreasing(ids: seq<int>) {
    && (forall i :: 0 <= i < |ids| ==> 0 <= ids[i])
    && (forall i, j :: 0 <= i < j < |ids| ==> ids[i] < ids[j])
  }

  /** Nodes of different numbers never issue the same identifier, whatever their clocks and epochs. */
  lemma NodesAreApart(m: Mark, epoch: Int64, calls: seq<Readings>, node: Int64, m': Mark, epoch': Int64, calls': seq<Readings>, node': Int64)
    requires Proper(m) && IsNode(node) && Proper(m') && IsNode(node') && node != node'
    ensures forall x <- Marks(m, epoch, calls), y <- Marks(m', epoch', calls') :: Pack(x, node) != Pack(y, node')
  {
    var ms, ms' := Marks(m, epoch, calls), Marks(m', epoch', calls');
    MarksGrow(m, epoch, calls);
    MarksGrow(m', epoch', calls');
    hide Pack, Marks;
    forall x <- ms, y <- ms' ensures Pack(x, node) != Pack(y, node') {
      NodesNeverCollide(x, node, y, node');
    }
  }

  /** One node repeats an identifier only after exactly a multiple of 2^42 ms. */
  lemma NodeRepeatsOnlyAfterRange(m: Mark, epoch: Int64, calls: seq<Readings>, node: Int64, i: int, j: int)
    requires Proper(m) && IsNode(node) && 0 <= i < j < |Marks(m, epoch, calls)|
    ensures var ms := Marks(m, epoch, calls);
            Pack(ms[i], node) == Pack(ms[j], node) <==>
              ms[j].time > ms[i].time && (ms[j].time - ms[i].time) % RANGE == 0 && ms[i].sequence == ms[j].sequence
  {
    hide Pack, Marks, InOrder, Before, Proper;
    var ms := Marks(m, epoch, calls);
    TwoMarks(m, epoch, calls, i, j);
    SameIdIff(ms[i], ms[j], node);
  }

  lemma TwoMarks(m: Mark, epoch: Int64, calls: seq<Readings>, i: int, j: int)
    requires Proper(m) && 0 <= i < j < |Marks(m, epoch, calls)|
    ensures var x, y := Marks(m, epoch, calls)[i], Marks(m, epoch, calls)[j];
            Proper(x) && Proper(y) && (x.time < y.time || (x.time == y.time && x.sequence < y.sequence))
  {
    hide Marks;
    MarksGrow(m, epoch, calls);
    assert Before(Marks(m, epoch, calls)[i], Marks(m, epoch, calls)[j]);
  }

  lemma SameIdIff(x: Mark, y: Mark, node: Int64)
    requires Proper(x) && Proper(y) && IsNode(node)
    ensures Pack(x, node) == Pack(y, node) <==> x.sequence == y.sequence && (y.time - x.time) % RANGE == 0
  {
    hide Pack;
    PackIsSum(x, node);
    PackIsSum(y, node);
    NodesNeverCollide(x, node, y, node);
    SameRestIff(x.time, y.time);
  }

  lemma SameRestIff(x: int, y: int)
    ensures x % RANGE == y % RANGE <==> (y - x) % RANGE == 0
  {
    var a, b, q := x % RANGE, y % RANGE, y / RANGE - x / RANGE;
    assert y - x == q * RANGE + (b - a);
    if b >= a {
      Quotient(q, b - a, RANGE);
    } else {
      Quotient(q - 1, b - a + RANGE, RANGE);
    }
  }
}
