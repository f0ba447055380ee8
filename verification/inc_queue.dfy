/** The per-group incremental move queue (src/CtrlGroup.h:12-41 and the queue
    operations of src/MotionControl.c): a ring buffer of `QSize` pulse
    increments, filled by the trajectory tasks and drained once per
    interpolation period by the incremental-move task. The semaphore that
    guards it is not modelled: every operation here runs with the lock held. */
module IncQueue {
  import opened Wrappers
  import CtrlGroup

  /** `Q_SIZE` */
  const QSize: nat := 200

  /** `Q_OFFSET_IDX(a, b, c)`: `a + b` brought back into `[0, c)` by at most
      one subtraction or addition of `c`. */
  function QOffsetIdx(a: int, b: int, c: int): int
  {
    if a + b >= c then a + b - c
    else if a + b < 0 then a + b + c
    else a + b
  }

  /** For an index in range and an offset of at most one lap either way, the
      macro is the ring-buffer position `(a + b) mod c`. */
  lemma QOffsetIdxIsMod(a: int, b: int, c: int)
    requires 0 <= a < c && -c <= b <= c
    ensures 0 <= QOffsetIdx(a, b, c) < c
    ensures QOffsetIdx(a, b, c) == (a + b) % c
  {
  }

  /** Further than one lap the macro leaves the buffer. */
  lemma QOffsetIdxLeavesRange()
    ensures QOffsetIdx(0, 2 * QSize, QSize) == QSize
    ensures QOffsetIdx(0, -2 * QSize, QSize) == -(QSize as int)
  {
  }

  /** One axis vector of pulse increments. */
  type Increment = s: seq<int> | |s| == CtrlGroup.AxesNum witness [0, 0, 0, 0, 0, 0, 0, 0]

  /** `Incremental_data`: the time (ms into the trajectory) the increment
      reaches, its position format, and the increments. */
  datatype IncData = IncData(time: nat, frame: int, user: int, tool: int, inc: Increment)

  /** The format fields the controller receives with each period's increment. */
  datatype Format = Format(tool: int, frame: int, user: int)

  function FormatOf(d: IncData): Format
  {
    Format(d.tool, d.frame, d.user)
  }

  /** `Incremental_q` without its lock. */
  datatype Queue = Queue(cnt: int, idx: int, data: seq<IncData>)

  predicate Valid(q: Queue)
  {
    |q.data| == QSize && 0 <= q.cnt <= QSize && 0 <= q.idx < QSize
  }

  /** Buffer slot of the `k`-th queued element. */
  function Slot(idx: nat, k: nat): (s: nat)
    requires idx < QSize && k < QSize
    ensures s < QSize && s == QOffsetIdx(idx, k, QSize)
  {
    if idx + k >= QSize then idx + k - QSize else idx + k
  }

  /** The queued elements, oldest first. */
  function Contents(q: Queue): (cs: seq<IncData>)
    requires Valid(q)
    ensures |cs| == q.cnt
    ensures forall k :: 0 <= k < q.cnt ==> cs[k] == q.data[Slot(q.idx, k)]
  {
    seq(q.cnt, k requires 0 <= k < q.cnt => q.data[Slot(q.idx, k)])
  }

  /** The queue every group starts with. */
  function Empty(filler: IncData): (q: Queue)
    ensures Valid(q) && Contents(q) == []
  {
    Queue(0, 0, seq(QSize, _ => filler))
  }

  /** The locked part of `Ros_MotionControl_AddPulseIncPointToQ`. A full queue
      gives `None`: the caller then waits for the incremental-move task to
      make room, or fails once motion is no longer ready. */
  function Enqueue(q: Queue, x: IncData): (r: Option<Queue>)
    requires Valid(q)
    ensures r.None? <==> q.cnt >= QSize
    ensures r.Some? ==> Valid(r.value) && Contents(r.value) == Contents(q) + [x]
  {
    if q.cnt >= QSize then None
    else
      var index := QOffsetIdx(q.idx, q.cnt, QSize);
      var r := Queue(q.cnt + 1, q.idx, q.data[index := x]);
      assert forall k :: 0 <= k < q.cnt ==> Slot(q.idx, k) != index;
      assert Contents(r) == Contents(q) + [x];
      Some(r)
  }

  /** Dropping the front element: `idx = Q_OFFSET_IDX(idx, 1, Q_SIZE); cnt--`. */
  function PopFront(q: Queue): (r: Queue)
    requires Valid(q) && q.cnt > 0
    ensures Valid(r) && Contents(r) == Contents(q)[1..]
    ensures q.data[q.idx] == Contents(q)[0]
  {
    var r := Queue(q.cnt - 1, QOffsetIdx(q.idx, 1, QSize), q.data);
    assert forall k :: 0 <= k < r.cnt ==> Slot(r.idx, k) == Slot(q.idx, k + 1);
    r
  }

  /** Enqueueing into an empty queue and popping gives the element back. */
  lemma EnqueueThenPop(q: Queue, x: IncData)
    requires Valid(q) && q.cnt == 0
    ensures Enqueue(q, x).Some?
    ensures var r := Enqueue(q, x).value; r.data[r.idx] == x && Contents(PopFront(r)) == []
  {
    assert Contents(q) == [];
  }

  /** First-in, first-out: the queue hands elements out in insertion order. */
  lemma {:induction false} EnqueueAllThenDrain(q: Queue, xs: seq<IncData>)
    requires Valid(q) && q.cnt + |xs| <= QSize
    ensures EnqueueAll(q, xs).Some?
    ensures Contents(EnqueueAll(q, xs).value) == Contents(q) + xs
    decreases |xs|
  {
    if |xs| > 0 {
      var q1 := Enqueue(q, xs[0]).value;
      EnqueueAllThenDrain(q1, xs[1..]);
      assert Contents(q) + [xs[0]] + xs[1..] == Contents(q) + xs;
    }
  }

  function EnqueueAll(q: Queue, xs: seq<IncData>): (r: Option<Queue>)
    requires Valid(q)
    ensures r.Some? ==> Valid(r.value)
    decreases |xs|
  {
    if |xs| == 0 then Some(q)
    else match Enqueue(q, xs[0])
      case None => None
      case Some(q1) => EnqueueAll(q1, xs[1..])
  }

  /** `Ros_MotionControl_ClearQ_All` on one queue: the count drops to zero,
      the index and the stored data stay. */
  function Clear(q: Queue): (r: Queue)
    requires Valid(q)
    ensures Valid(r) && Contents(r) == []
    ensures r.idx == q.idx && r.data == q.data
  {
    q.(cnt := 0)
  }

  /** A group's queue together with its `hasDataToProcess` flag. */
  datatype GroupQueue = GroupQueue(q: Queue, hasDataToProcess: bool)

  /** `Ros_MotionControl_ClearQ_All` */
  function ClearAll(gs: seq<GroupQueue>): (r: seq<GroupQueue>)
    requires forall g :: 0 <= g < |gs| ==> Valid(gs[g].q)
    ensures |r| == |gs|
    ensures forall g :: 0 <= g < |r| ==> !r[g].hasDataToProcess && Valid(r[g].q) && Contents(r[g].q) == []
    ensures forall g :: 0 <= g < |r| ==> r[g].q.idx == gs[g].q.idx && r[g].q.data == gs[g].q.data
  {
    seq(|gs|, g requires 0 <= g < |gs| => GroupQueue(Clear(gs[g].q), false))
  }

  /** `Ros_MotionControl_GetQueueCnt`: -1 for a group number the controller
      does not have, else the count. */
  function GetQueueCnt(gs: seq<Queue>, groupNo: int): (r: int)
    requires forall g :: 0 <= g < |gs| ==> Valid(gs[g])
    ensures r == -1 <==> !(0 <= groupNo < |gs|)
    ensures 0 <= groupNo < |gs| ==> r == |Contents(gs[groupNo])|
  {
    if 0 <= groupNo < |gs| then
      assert Valid(gs[groupNo]);
      gs[groupNo].cnt
    else -1
  }

  /** `Ros_MotionControl_HasDataInQueue` */
  function HasDataInQueue(gs: seq<Queue>): (r: bool)
    requires forall g :: 0 <= g < |gs| ==> Valid(gs[g])
    ensures r <==> exists g :: 0 <= g < |gs| && Contents(gs[g]) != []
  {
    if |gs| == 0 then false
    else
      assert Contents(gs[0]) != [] <==> gs[0].cnt > 0;
      if gs[0].cnt > 0 then true
      else
        var r := HasDataInQueue(gs[1..]);
        assert forall g :: 1 <= g < |gs| ==> gs[g] == gs[1..][g - 1];
        r
  }

  // ---------------------------------------------------------------------
  // Draining one interpolation period (src/MotionControl.c:839-892)

  function AddInc(a: Increment, b: Increment): (r: Increment)
    ensures forall i :: 0 <= i < CtrlGroup.AxesNum ==> r[i] == a[i] + b[i]
  {
    seq(CtrlGroup.AxesNum, i requires 0 <= i < CtrlGroup.AxesNum => a[i] + b[i])
  }

  const ZeroInc: Increment := [0, 0, 0, 0, 0, 0, 0, 0]

  /** Sum of the increments of `ds`. */
  function SumIncs(ds: seq<IncData>): Increment
  {
    if |ds| == 0 then ZeroInc else AddInc(SumIncs(ds[..|ds| - 1]), ds[|ds| - 1].inc)
  }

  lemma SumIncsSnoc(ds: seq<IncData>, n: nat)
    requires n < |ds|
    ensures SumIncs(ds[..n + 1]) == AddInc(SumIncs(ds[..n]), ds[n].inc)
  {
    assert ds[..n + 1][..n] == ds[..n];
  }

  /** The buffer slot at `idx` holds the front element. */
  lemma Front(q: Queue)
    requires Valid(q) && q.cnt > 0
    ensures q.data[q.idx] == Contents(q)[0]
  {
  }

  /** An element after the first is merged into the same period when it lies
      within one interpolation period after the group's processed time and
      has the first element's format. */
  predicate Joins(first: IncData, qTime: nat, period: nat, d: IncData)
  {
    qTime <= d.time && d.time - qTime <= period && FormatOf(d) == FormatOf(first)
  }

  /** Summing a sequence with one more element in front. */
  lemma {:induction false} SumIncsCons(x: IncData, ys: seq<IncData>)
    ensures SumIncs([x] + ys) == AddInc(x.inc, SumIncs(ys))
    decreases |ys|
  {
    var zs := [x] + ys;
    if |ys| == 0 {
      assert zs[..0] == [];
      assert AddInc(ZeroInc, x.inc) == AddInc(x.inc, ZeroInc);
    } else {
      var init := ys[..|ys| - 1];
      assert zs[..|zs| - 1] == [x] + init;
      SumIncsCons(x, init);
      var a := AddInc(AddInc(x.inc, SumIncs(init)), ys[|ys| - 1].inc);
      assert a == AddInc(x.inc, AddInc(SumIncs(init), ys[|ys| - 1].inc));
    }
  }

  /** The merge loop: takes the leading elements of `q` that join `first`. */
  method TakeJoining(q: Queue, first: IncData, qTime: nat, period: nat) returns (n: nat, sum: Increment, last: nat, rest: Queue)
    requires Valid(q)
    ensures Valid(rest) && n <= q.cnt
    ensures Contents(rest) == Contents(q)[n..]
    ensures sum == SumIncs(Contents(q)[..n])
    ensures n > 0 ==> last == Contents(q)[n - 1].time
    ensures n == 0 ==> last == first.time
    ensures forall k :: 0 <= k < n ==> Joins(first, qTime, period, Contents(q)[k])
    ensures n < q.cnt ==> !Joins(first, qTime, period, Contents(q)[n])
  {
    ghost var cs := Contents(q);
    n, sum, last, rest := 0, ZeroInc, first.time, q;
    assert cs[..0] == [];
    while rest.cnt > 0
      invariant Valid(rest) && n <= |cs|
      invariant Contents(rest) == cs[n..]
      invariant sum == SumIncs(cs[..n])
      invariant n > 0 ==> last == cs[n - 1].time
      invariant n == 0 ==> last == first.time
      invariant forall k :: 0 <= k < n ==> Joins(first, qTime, period, cs[k])
      decreases rest.cnt
    {
      Front(rest);
      var next := rest.data[rest.idx];
      if !(qTime <= next.time && next.time - qTime <= period) {
        break;
      }
      if next.tool != first.tool || next.frame != first.frame || next.user != first.user {
        break;
      }
      SumIncsSnoc(cs, n);
      sum := AddInc(sum, next.inc);
      last := next.time;
      rest := PopFront(rest);
      n := n + 1;
    }
  }

  /** What the incremental-move task sends for one group in one period:
      `None` as format stands for the empty-queue default (tool 0, pulse
      format, user frame 0). */
  datatype Step = Step(format: Option<Format>, inc: Increment, qTime: nat, queue: Queue)

  /** The queue-reading part of the incremental-move task for one group. On an
      empty queue nothing changes and a zero increment goes out. Otherwise the
      front element is taken, followed by every next element that joins it;
      the sum goes out and the processed time becomes the last taken element's. */
  method TakePeriod(q: Queue, qTime: nat, period: nat) returns (r: Step)
    requires Valid(q)
    ensures Valid(r.queue)
    ensures q.cnt == 0 ==> r == Step(None, ZeroInc, qTime, q)
    ensures q.cnt > 0 ==>
      var cs := Contents(q);
      var n := |cs| - |Contents(r.queue)|;
      && 1 <= n <= |cs|
      && Contents(r.queue) == cs[n..]
      && r.format == Some(FormatOf(cs[0]))
      && r.inc == SumIncs(cs[..n])
      && r.qTime == cs[n - 1].time
      && (forall k :: 1 <= k < n ==> Joins(cs[0], qTime, period, cs[k]))
      && (n < |cs| ==> !Joins(cs[0], qTime, period, cs[n]))
  {
    if q.cnt == 0 {
      return Step(None, ZeroInc, qTime, q);
    }
    ghost var cs := Contents(q);
    var first := q.data[q.idx];
    var tail := PopFront(q);
    var m, sum, last, rest := TakeJoining(tail, first, qTime, period);
    ghost var ts := Contents(tail);
    assert ts == cs[1..] && first == cs[0];
    assert Contents(rest) == cs[m + 1..];
    assert cs[..m + 1] == [first] + ts[..m];
    SumIncsCons(first, ts[..m]);
    r := Step(Some(FormatOf(first)), AddInc(first.inc, sum), last, rest);
  }
}
