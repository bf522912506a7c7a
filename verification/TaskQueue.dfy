/**
 The task queue of control_plane/scheduler/queue.go: a binary heap under a comparator that reads the
 clock at every comparison, with the sifting of Go's container/heap written out.
 */
module TaskQueue {
  import opened Wrappers
  import opened TaskOrder

  /** The clock as seen by successive comparisons. */
  type Clock = nat -> int

  ghost predicate Frozen(clock: Clock) {
    forall k: nat :: clock(k) == clock(0)
  }

  /** b does not go before a: the order by (level, deadline). */
  predicate NotAfter(a: Task, b: Task, now: int) {
    LevelOf(a, now) < LevelOf(b, now) || (LevelOf(a, now) == LevelOf(b, now) && a.deadline <= b.deadline)
  }

  lemma NotAfterIsNotLess(a: Task, b: Task, now: int)
    ensures NotAfter(a, b, now) <==> !Less(b, a, now)
    ensures Less(b, a, now) ==> NotAfter(b, a, now)
  {
    LessIsLexicographic(b, a, now);
  }

  /** The place j respects its parent. */
  ghost predicate Ordered(pq: seq<Task>, j: int, now: int)
    requires 0 < j < |pq|
  {
    NotAfter(pq[(j-1)/2], pq[j], now)
  }

  ghost predicate IsHeap(pq: seq<Task>, now: int) {
    forall j :: 0 < j < |pq| ==> Ordered(pq, j, now)
  }

  function Swap(pq: seq<Task>, i: nat, j: nat): (r: seq<Task>)
    requires i < |pq| && j < |pq|
    ensures |r| == |pq| && r[i] == pq[j] && r[j] == pq[i]
    ensures forall k :: 0 <= k < |pq| && k != i && k != j ==> r[k] == pq[k]
    ensures multiset(r) == multiset(pq)
  {
    pq[i := pq[j]][j := pq[i]]
  }

  /** The root of a heap goes before everything in it. */
  lemma {:induction false} RootIsFirst(pq: seq<Task>, now: int, j: nat)
    requires IsHeap(pq, now) && j < |pq|
    ensures NotAfter(pq[0], pq[j], now)
  {
    if j > 0 {
      assert Ordered(pq, j, now);
      RootIsFirst(pq, now, (j - 1) / 2);
    }
  }

  // ---------- Sifting ----------

  /** The place j comes after the grandparent it would have without its parent i. */
  ghost predicate OrderedPast(pq: seq<Task>, i: int, j: int, now: int)
    requires 0 < i < j < |pq|
  {
    NotAfter(pq[(i-1)/2], pq[j], now)
  }

  ghost predicate ChildrenPast(pq: seq<Task>, i: int, now: int) {
    0 < i ==> forall j :: i < j < |pq| && (j-1)/2 == i ==> OrderedPast(pq, i, j, now)
  }

  /** A heap but for the place i against its parent. */
  ghost predicate HeapButUp(pq: seq<Task>, i: int, now: int) {
    ChildrenPast(pq, i, now) && forall j :: 0 < j < |pq| && j != i ==> Ordered(pq, j, now)
  }

  /** A heap but for the place i against its children. */
  ghost predicate HeapButDown(pq: seq<Task>, i: int, now: int) {
    ChildrenPast(pq, i, now) && forall j :: 0 < j < |pq| && (j-1)/2 != i ==> Ordered(pq, j, now)
  }

  lemma SiftUpStep(pq: seq<Task>, j: nat, now: int)
    requires 0 < j < |pq| && HeapButUp(pq, j, now) && Less(pq[j], pq[(j-1)/2], now)
    ensures HeapButUp(Swap(pq, (j-1)/2, j), (j-1)/2, now)
  {
    var i := (j - 1) / 2;
    var r := Swap(pq, i, j);
    NotAfterIsNotLess(pq[i], pq[j], now);
    forall k | 0 < k < |r| && k != i ensures Ordered(r, k, now) {
      if k != j {
        assert Ordered(pq, k, now);
        if (k - 1) / 2 == j { assert OrderedPast(pq, j, k, now); }
      }
    }
    forall k | 0 < i < k < |r| && (k-1)/2 == i ensures OrderedPast(r, i, k, now) {
      assert Ordered(pq, i, now);
      if k != j { assert Ordered(pq, k, now); }
    }
  }

  /** c is the child of i that goes first. */
  ghost predicate FirstChild(pq: seq<Task>, i: int, c: int, now: int) {
    && 0 <= i < c < |pq| && (c-1)/2 == i
    && (2*i + 1 < |pq| ==> NotAfter(pq[c], pq[2*i + 1], now))
    && (2*i + 2 < |pq| ==> NotAfter(pq[c], pq[2*i + 2], now))
  }

  lemma SiftDownStep(pq: seq<Task>, i: nat, c: nat, now: int)
    requires HeapButDown(pq, i, now) && FirstChild(pq, i, c, now) && Less(pq[c], pq[i], now)
    ensures HeapButDown(Swap(pq, i, c), c, now)
  {
    var r := Swap(pq, i, c);
    NotAfterIsNotLess(pq[i], pq[c], now);
    forall k | 0 < k < |r| && (k-1)/2 != c ensures Ordered(r, k, now) {
      if (k - 1) / 2 == i {
        assert k == 2*i + 1 || k == 2*i + 2;
      } else {
        assert Ordered(pq, k, now);
        if k == i { assert OrderedPast(pq, i, c, now); }
      }
    }
    forall k | c < k < |r| && (k-1)/2 == c ensures OrderedPast(r, c, k, now) {
      assert Ordered(pq, k, now);
    }
  }

  /** Sifting down may stop where the place goes before its first child. */
  lemma SiftDownEnds(pq: seq<Task>, i: nat, now: int)
    requires HeapButDown(pq, i, now)
    requires 2*i + 1 < |pq| ==> exists c :: FirstChild(pq, i, c, now) && NotAfter(pq[i], pq[c], now)
    ensures IsHeap(pq, now)
  {
    forall k | 0 < k < |pq| ensures Ordered(pq, k, now) {
      if (k - 1) / 2 == i {
        assert k == 2*i + 1 || k == 2*i + 2;
      }
    }
  }

  // ---------- What push and pop do ----------

  /** Whatever the clock does, a push adds its task; at a frozen clock it keeps the heap. */
  ghost predicate Pushes(before: seq<Task>, task: Task, after: seq<Task>, clock: Clock) {
    && multiset(after) == multiset(before) + multiset{task}
    && (Frozen(clock) && IsHeap(before, clock(0)) ==> IsHeap(after, clock(0)))
  }

  /** Whatever the clock does, a pop takes the root out; at a frozen clock it keeps the heap. */
  ghost predicate Pops(before: seq<Task>, task: Option<Task>, after: seq<Task>, clock: Clock) {
    if before == [] then task == None && after == []
    else
      && task == Some(before[0])
      && multiset(before) == multiset(after) + multiset{before[0]}
      && (Frozen(clock) && IsHeap(before, clock(0)) ==> IsHeap(after, clock(0)))
  }

  /** A task waiting for its delay. Its timer keeps the queue object it was pushed to. */
  datatype Delayed = Delayed(task: Task, delay: int)

  class ThreadSafeQueue {
    var pq: seq<Task>
    var timers: seq<Delayed>

    constructor ()
      ensures pq == [] && timers == []
    {
      pq, timers := [], [];
    }

    method Push(task: Task, clock: Clock)
      modifies this`pq
      ensures Pushes(old(pq), task, pq, clock)
    {
      assert (pq + [task])[..|pq|] == pq;
      pq := pq + [task];
      Up(|pq| - 1, clock);
    }

    method Pop(clock: Clock) returns (task: Option<Task>)
      modifies this`pq
      ensures Pops(old(pq), task, pq, clock)
    {
      if |pq| == 0 {
        return None;
      }
      ghost var before := pq;
      var n := |pq| - 1;
      pq := Swap(pq, 0, n);
      assert multiset(before) == multiset(pq[..n]) + multiset{before[0]} by {
        assert pq == pq[..n] + [before[0]];
      }
      if Frozen(clock) && IsHeap(before, clock(0)) { RootReplaced(before, clock(0)); }
      Down(n, clock);
      task := Some(pq[n]);
      pq := pq[..n];
    }

    method Peek() returns (task: Option<Task>)
      ensures task == if pq == [] then None else Some(pq[0])
    {
      task := if |pq| == 0 then None else Some(pq[0]);
    }

    /** Starts a timer that will push the task to this queue object. */
    method PushDelayed(task: Task, delay: int)
      modifies this`timers
      ensures timers == old(timers) + [Delayed(task, delay)]
    {
      timers := timers + [Delayed(task, delay)];
    }

    method FireTimer(i: nat, clock: Clock)
      requires i < |timers|
      modifies this
      ensures timers == old(timers)[..i] + old(timers)[i+1..]
      ensures Pushes(old(pq), old(timers)[i].task, pq, clock)
    {
      var task := timers[i].task;
      timers := timers[..i] + timers[i+1..];
      Push(task, clock);
    }

    /** container/heap's up from the last place. */
    method Up(last: nat, clock: Clock)
      requires last == |pq| - 1
      modifies this`pq
      ensures multiset(pq) == multiset(old(pq))
      ensures Frozen(clock) && IsHeap(old(pq)[..last], clock(0)) ==> IsHeap(pq, clock(0))
    {
      ghost var now, ordered := clock(0), Frozen(clock) && IsHeap(pq[..last], clock(0));
      if ordered { AppendBreaksLast(pq, now); }
      var j, asked := last, 0;
      while j > 0
        invariant 0 <= j < |pq|
        invariant multiset(pq) == multiset(old(pq))
        invariant ordered ==> HeapButUp(pq, j, now)
      {
        var i := (j - 1) / 2;
        if !Less(pq[j], pq[i], clock(asked)) {
          NotAfterIsNotLess(pq[i], pq[j], clock(asked));
          assert ordered ==> Ordered(pq, j, now);
          break;
        }
        if ordered { SiftUpStep(pq, j, now); }
        pq := Swap(pq, i, j);
        j, asked := i, asked + 1;
      }
    }

    /** container/heap's down from the root, among the first n places. */
    method Down(n: nat, clock: Clock)
      requires n < |pq|
      modifies this`pq
      ensures |pq| == |old(pq)| && pq[n] == old(pq)[n]
      ensures multiset(pq[..n]) == multiset(old(pq)[..n])
      ensures Frozen(clock) && HeapButDown(old(pq)[..n], 0, clock(0)) ==> IsHeap(pq[..n], clock(0))
    {
      ghost var now, ordered := clock(0), Frozen(clock) && HeapButDown(pq[..n], 0, clock(0));
      var i, asked := 0, 0;
      while 2 * i + 1 < n
        invariant 0 <= i && |pq| == |old(pq)| && pq[n] == old(pq)[n]
        invariant multiset(pq[..n]) == multiset(old(pq)[..n])
        invariant ordered ==> HeapButDown(pq[..n], i, now)
        decreases n - i
      {
        var j, first := ChooseChild(i, n, clock, asked);
        asked := asked + first;
        if !Less(pq[j], pq[i], clock(asked)) {
          NotAfterIsNotLess(pq[i], pq[j], clock(asked));
          if ordered { SiftDownEnds(pq[..n], i, now); }
          return;
        }
        if ordered { SiftDownStep(pq[..n], i, j, now); }
        assert Swap(pq, i, j)[..n] == Swap(pq[..n], i, j);
        pq := Swap(pq, i, j);
        i, asked := j, asked + 1;
      }
      if ordered { SiftDownEnds(pq[..n], i, now); }
    }

    /** The child to compare with, and how many comparisons it took to choose. */
    method ChooseChild(i: nat, n: nat, clock: Clock, asked: nat) returns (j: nat, comparisons: nat)
      requires 2 * i + 1 < n <= |pq|
      ensures i < j < n
      ensures Frozen(clock) ==> FirstChild(pq[..n], i, j, clock(0))
    {
      j, comparisons := 2 * i + 1, 0;
      if j + 1 < n {
        NotAfterIsNotLess(pq[j], pq[j+1], clock(asked));
        comparisons := 1;
        if Less(pq[j+1], pq[j], clock(asked)) {
          j := j + 1;
        }
      }
    }
  }

  /** A heap with one more task is a heap but for the last place. */
  lemma AppendBreaksLast(pq: seq<Task>, now: int)
    requires |pq| > 0 && IsHeap(pq[..|pq|-1], now)
    ensures HeapButUp(pq, |pq| - 1, now)
  {
    forall j | 0 < j < |pq| - 1 ensures Ordered(pq, j, now) {
      assert Ordered(pq[..|pq|-1], j, now);
    }
  }

  /** A heap whose root is replaced by its last task, which is dropped. */
  lemma RootReplaced(pq: seq<Task>, now: int)
    requires |pq| > 0 && IsHeap(pq, now)
    ensures HeapButDown(Swap(pq, 0, |pq| - 1)[..|pq|-1], 0, now)
  {
    var r := Swap(pq, 0, |pq| - 1)[..|pq|-1];
    forall j | 0 < j < |r| && (j-1)/2 != 0 ensures Ordered(r, j, now) {
      assert Ordered(pq, j, now);
    }
  }

  // ---------- Runs of pushes and pops ----------

  /** Popping a whole heap at one clock reading, one task after another. */
  ghost predicate Drains(heaps: seq<seq<Task>>, out: seq<Task>, clock: Clock) {
    && |heaps| == |out| + 1 && heaps[|out|] == []
    && forall i :: 0 <= i < |out| ==> heaps[i] != [] && Pops(heaps[i], Some(out[i]), heaps[i+1], clock)
  }

  /** Draining a heap at a frozen clock yields its tasks sorted by (level, deadline). */
  lemma {:induction false} DrainSorts(heaps: seq<seq<Task>>, out: seq<Task>, clock: Clock)
    requires Frozen(clock) && Drains(heaps, out, clock) && IsHeap(heaps[0], clock(0))
    ensures multiset(out) == multiset(heaps[0])
    ensures forall i, j :: 0 <= i < j < |out| ==> NotAfter(out[i], out[j], clock(0))
  {
    if out != [] {
      var rest := out[1..];
      assert Drains(heaps[1..], rest, clock) by {
        forall i | 0 <= i < |rest| ensures heaps[1..][i] != [] && Pops(heaps[1..][i], Some(rest[i]), heaps[1..][i+1], clock) {
          assert Pops(heaps[i+1], Some(out[i+1]), heaps[i+2], clock);
        }
      }
      assert Pops(heaps[0], Some(out[0]), heaps[1], clock);
      DrainSorts(heaps[1..], rest, clock);
      assert out == [out[0]] + rest;
      forall j | 0 < j < |out| ensures NotAfter(out[0], out[j], clock(0)) {
        assert out[j] in multiset(rest);
        assert out[j] in multiset(heaps[0]);
        var k :| 0 <= k < |heaps[0]| && heaps[0][k] == out[j];
        RootIsFirst(heaps[0], clock(0), k);
      }
    }
  }

  datatype QueueOp = PushOp(task: Task) | PopOp(result: Option<Task>)

  ghost predicate OpTakes(before: seq<Task>, op: QueueOp, after: seq<Task>, clock: Clock) {
    match op
    case PushOp(task) => Pushes(before, task, after, clock)
    case PopOp(result) => Pops(before, result, after, clock)
  }

  function PushedBy(op: QueueOp): multiset<Task> {
    if op.PushOp? then multiset{op.task} else multiset{}
  }

  function PoppedBy(op: QueueOp): multiset<Task> {
    if op.PopOp? && op.result.Some? then multiset{op.result.value} else multiset{}
  }

  function Pushed(ops: seq<QueueOp>): multiset<Task> {
    if ops == [] then multiset{} else Pushed(ops[..|ops|-1]) + PushedBy(ops[|ops|-1])
  }

  function Popped(ops: seq<QueueOp>): multiset<Task> {
    if ops == [] then multiset{} else Popped(ops[..|ops|-1]) + PoppedBy(ops[|ops|-1])
  }

  ghost predicate IsQueueRun(queues: seq<seq<Task>>, ops: seq<QueueOp>, clocks: seq<Clock>) {
    && |queues| == |ops| + 1 && |clocks| == |ops|
    && forall i :: 0 <= i < |ops| ==> OpTakes(queues[i], ops[i], queues[i+1], clocks[i])
  }

  lemma OpConserves(before: seq<Task>, op: QueueOp, after: seq<Task>, clock: Clock, pushed: multiset<Task>, popped: multiset<Task>, first: multiset<Task>)
    requires OpTakes(before, op, after, clock) && multiset(before) + popped == first + pushed
    ensures multiset(after) + (popped + PoppedBy(op)) == first + (pushed + PushedBy(op))
  {
    assert multiset(after) + PoppedBy(op) == multiset(before) + PushedBy(op);
    assert multiset(after) + (popped + PoppedBy(op)) == multiset(before) + popped + PushedBy(op);
  }

  /** However the clock moves, within one chain of comparisons or between calls, no task is lost or
      duplicated by any run of pushes and pops. */
  lemma {:induction false} TasksConserved(queues: seq<seq<Task>>, ops: seq<QueueOp>, clocks: seq<Clock>)
    requires IsQueueRun(queues, ops, clocks)
    ensures multiset(queues[|ops|]) + Popped(ops) == multiset(queues[0]) + Pushed(ops)
  {
    if ops != [] {
      var n := |ops| - 1;
      var queues', ops' := queues[..n+1], ops[..n];
      assert IsQueueRun(queues', ops', clocks[..n]);
      TasksConserved(queues', ops', clocks[..n]);
      OpConserves(queues[n], ops[n], queues[n+1], clocks[n], Pushed(ops'), Popped(ops'), multiset(queues[0]));
    }
  }

  // ---------- Across clock readings ----------

  /** Every two tasks are two levels apart, one way or the other. */
  ghost predicate Separated(pq: seq<Task>) {
    forall i, j :: 0 <= i < |pq| && 0 <= j < |pq| && i != j ==>
      Lead(pq[i], pq[j]) >= 2 * AGING - 1 || Lead(pq[j], pq[i]) >= 2 * AGING - 1
  }

  /** A heap of well separated tasks stays a heap as time passes. */
  lemma SeparatedHeapStays(pq: seq<Task>, now: int, later: int)
    requires Separated(pq) && IsHeap(pq, now)
    ensures IsHeap(pq, later)
  {
    forall j | 0 < j < |pq| ensures Ordered(pq, j, later) {
      var i := (j - 1) / 2;
      assert Ordered(pq, j, now);
      if Lead(pq[i], pq[j]) >= 2 * AGING - 1 { LeadSeparatesLevels(pq[i], pq[j], later); }
      else { LeadSeparatesLevels(pq[j], pq[i], now); }
    }
  }
}
