/** The scheduler object of control_plane/scheduler/scheduler.go. */
module Scheduler {
  import opened Wrappers
  import opened Sharding
  import opened TaskOrder
  import opened TaskQueue
  import opened CircuitBreaker
  import MemoryStore
  import Runs = SchedulerRuns

  datatype SchedulerMode = Normal | Degraded | ReadOnly | Draining

  datatype AdmissionMode = AdmissionNormal | AdmissionDrain | AdmissionFreeze

  datatype NodeHealth = NodeHealth(quarantined: bool, canary: bool)

  datatype Verdict =
    | Accepted
    | NotLeader
    | SystemFrozen
    | SystemDraining
    | CircuitOpen
    | NoNewTasks
    | LowPriority
    | QueueFull
    | WrongShard
    | ShardPanic

  /** The task is this shard's and this leader's, whatever else was decided. */
  predicate ConcernsThisInstance(v: Verdict) {
    !v.WrongShard? && !v.NotLeader? && !v.ShardPanic?
  }

  /** The zero time of Go, in nanoseconds from the epoch. */
  const ZERO_TIME := -62135596800 * SECOND

  /** What Submit reads besides the task. */
  datatype Gate = Gate(
    active: bool,
    mode: SchedulerMode,
    admissionMode: AdmissionMode,
    canary: bool,
    saturation: Saturation,
    queueDepth: nat,
    shardIndex: int,
    shardCount: int)

  function ShardVerdict(id: NodeID, shardIndex: int, shardCount: int): Verdict {
    if Panics(shardCount) then ShardPanic else if Owns(id, shardIndex, shardCount) then Accepted else WrongShard
  }

  /** The tests of Submit in their order, with their effect on the breaker. */
  function Decide(g: Gate, cfg: Config, b: Breaker, task: Task, now: int): (Breaker, Verdict) {
    if !g.active then (b, NotLeader)
    else if g.admissionMode.AdmissionFreeze? then (b, SystemFrozen)
    else if g.admissionMode.AdmissionDrain? then (b, SystemDraining)
    else
      var (c, admitted) := if g.canary then (b, true) else Admit(cfg, b, g.queueDepth, g.saturation, now);
      if !admitted then (c, CircuitOpen)
      else if g.mode.ReadOnly? || g.mode.Draining? then (c, NoNewTasks)
      else if g.mode.Degraded? && task.priority > 5 then (c, LowPriority)
      else if g.queueDepth > 1000 && task.priority > 0 then (c, QueueFull)
      else (c, ShardVerdict(task.nodeID, g.shardIndex, g.shardCount))
  }

  function Stamped(task: Task, now: int): Task {
    if task.submitTime == ZERO_TIME then task.(submitTime := now) else task
  }

  /** What the rate limiters answer; None lets the task through. */
  datatype Limits = Limits(nodeDelay: Option<int>, tenantDelay: Option<int>)

  /** The counters shared with the completion goroutines. */
  datatype Counters = Counters(activeTasks: int, domainTasks: map<string, int>, domainFailures: map<string, nat>)

  /** What one worker iteration does with the task it pops. */
  datatype Iteration =
    | QuarantineDrop
    | DomainThrottle
    | NodeLimit(delay: int)
    | TenantLimit(delay: int)
    | BudgetFull
    | Dispatch

  function Failures(c: Counters, domain: string): nat {
    if domain in c.domainFailures then c.domainFailures[domain] else 0
  }

  function Route(c: Counters, quarantined: bool, domain: string, limits: Limits): Iteration {
    if quarantined then QuarantineDrop
    else if domain != "" && Runs.CountOf(c.domainTasks, domain) >= Runs.LimitOf(Failures(c, domain)) then DomainThrottle
    else if limits.nodeDelay.Some? then NodeLimit(limits.nodeDelay.value)
    else if limits.tenantDelay.Some? then TenantLimit(limits.tenantDelay.value)
    else if c.activeTasks >= Runs.MAX_ACTIVE then BudgetFull
    else Dispatch
  }

  /** The delay after which a task that was not dispatched is pushed again. */
  function RetryDelay(it: Iteration): Option<int> {
    match it
    case DomainThrottle => Some(2 * SECOND)
    case NodeLimit(delay) => Some(delay)
    case TenantLimit(delay) => Some(delay)
    case BudgetFull => Some(1 * SECOND)
    case _ => None
  }

  function CountersAfter(c: Counters, it: Iteration, domain: string): Counters {
    if it.Dispatch? then c.(activeTasks := c.activeTasks + 1, domainTasks := Runs.Bumped(c.domainTasks, domain, 1)) else c
  }

  function CountersAfterCompletion(c: Counters, domain: string, failed: bool): Counters {
    Counters(c.activeTasks - 1, Runs.Bumped(c.domainTasks, domain, -1),
             if failed && domain != "" then c.domainFailures[domain := Failures(c, domain) + 1] else c.domainFailures)
  }

  /** What becomes of a popped task, told from the node's record, the counters and the limiters. */
  predicate GoesTo(quarantined: bool, c: Counters, domain: string, limits: Limits, it: Iteration) {
    var running := if domain in c.domainTasks then c.domainTasks[domain] else 0;
    var failures := if domain in c.domainFailures then c.domainFailures[domain] else 0;
    var full := domain != "" && (if failures > 5 then running >= 1 else running >= 10);
    && (it == QuarantineDrop <==> quarantined)
    && (it == DomainThrottle <==> !quarantined && full)
    && (it.NodeLimit? <==> !quarantined && !full && limits.nodeDelay.Some?)
    && (it.TenantLimit? <==> !quarantined && !full && limits.nodeDelay.None? && limits.tenantDelay.Some?)
    && (it == Dispatch <==> !quarantined && !full && limits == Limits(None, None) && c.activeTasks < 100)
  }

  /** When a task that was neither dropped nor dispatched is pushed again, in nanoseconds. */
  predicate WaitsFor(limits: Limits, it: Iteration, delay: Option<int>) {
    match it
    case DomainThrottle => delay == Some(2_000_000_000)
    case NodeLimit(_) => delay == limits.nodeDelay
    case TenantLimit(_) => delay == limits.tenantDelay
    case BudgetFull => delay == Some(1_000_000_000)
    case _ => delay == None
  }

  /** Only a dispatch counts: one more active task, and one more of its domain if it has a name. */
  ghost predicate CountsOne(before: Counters, after: Counters, dispatched: bool, domain: string) {
    && after.activeTasks == before.activeTasks + (if dispatched then 1 else 0)
    && after.domainFailures == before.domainFailures
    && forall d :: Runs.CountOf(after.domainTasks, d)
         == Runs.CountOf(before.domainTasks, d) + if dispatched && d == domain && d != "" then 1 else 0
  }

  lemma RouteMeans(c: Counters, quarantined: bool, domain: string, limits: Limits)
    ensures var it := Route(c, quarantined, domain, limits);
            GoesTo(quarantined, c, domain, limits, it) && WaitsFor(limits, it, RetryDelay(it))
            && CountsOne(c, CountersAfter(c, it, domain), it == Dispatch, domain)
  {
  }

  /** A completion gives back one active task, and one of its domain if it has a name; only an error counts
      as a failure of the domain. */
  lemma CompletionMeans(c: Counters, domain: string, failed: bool)
    ensures var after := CountersAfterCompletion(c, domain, failed);
            && after.activeTasks == c.activeTasks - 1
            && (forall d :: Runs.CountOf(after.domainTasks, d) == Runs.CountOf(c.domainTasks, d) - if d == domain && d != "" then 1 else 0)
            && (forall d :: Failures(after, d) == Failures(c, d) + if failed && d == domain && d != "" then 1 else 0)
  {
  }

  /** A task's submit time is set once: an unset one is stamped now, and nothing else of it changes. */
  lemma StampKeepsTask(task: Task, now: int)
    ensures var t := Stamped(task, now);
            && t == task.(submitTime := t.submitTime)
            && t.submitTime == (if task.submitTime == -62_135_596_800_000_000_000 then now else task.submitTime)
            && (now != ZERO_TIME ==> Stamped(t, now + 1) == t)
  {
  }

  // ---------- Admission ----------

  /** The admission condition, told from the fields; asked is the breaker's answer. */
  predicate Admissible(g: Gate, asked: bool, task: Task) {
    && g.active && g.admissionMode == AdmissionNormal
    && (g.canary || asked)
    && (g.mode == Normal || (g.mode == Degraded && task.priority <= 5))
    && (g.queueDepth <= 1000 || task.priority <= 0)
    && (g.shardCount > 1 ==>
          g.shardCount % 0x1_0000_0000 != 0 && Fnv(task.nodeID) % (g.shardCount % 0x1_0000_0000) == g.shardIndex)
  }

  /** A submission is accepted if and only if it is admissible; the breaker is asked, and may move, only for
      a node that is no canary, while the scheduler is active and its admission normal. */
  lemma AcceptedExactly(g: Gate, cfg: Config, b: Breaker, task: Task, now: int)
    ensures var asked := Step(cfg, b, Ask(g.queueDepth, g.saturation, now));
            var yes := Admitted(cfg, b, Ask(g.queueDepth, g.saturation, now));
            && (Decide(g, cfg, b, task, now).1.Accepted? <==> Admissible(g, yes, task))
            && Decide(g, cfg, b, task, now).0 == if g.active && g.admissionMode == AdmissionNormal && !g.canary then asked else b
  {
  }

  /** The same hash as the memory store's. */
  method FnvHash(s: NodeID) returns (h: Word)
    ensures h == Fnv(s)
  {
    h := FNV_OFFSET;
    var i := 0;
    while i < |s|
      invariant 0 <= i <= |s| && h == Fnv(s[..i])
    {
      assert s[..i+1][..i] == s[..i];
      h := TimesPrime(h);
      h := XorByte(h, s[i]);
      i := i + 1;
    }
    assert s[..|s|] == s;
  }

  /** One rehydration attempt for the state under a key of the store. */
  datatype Attempt = Attempt(key: string, verdict: Verdict)

  function RehydrationTask(row: MemoryStore.StateRow, now: int): Task {
    Task("rehydrate-" + row.stateID, row.nodeID, row.tenantID, row.stateID, 5, ZERO_TIME, now, "")
  }

  /** A rehydrated task names its own state and node, has the default priority and no deadline, and two states
      never share a request. */
  lemma RehydrationNamesItsState(row: MemoryStore.StateRow, other: MemoryStore.StateRow, now: int)
    ensures var t := RehydrationTask(row, now);
            && t.nodeID == row.nodeID && t.tenantID == row.tenantID && t.stateID == row.stateID
            && t.priority == 5 && t.submitTime == now && t.failureDomain == ""
            && (t.reqID == RehydrationTask(other, now).reqID <==> row.stateID == other.stateID)
  {
    var p := "rehydrate-";
    assert (p + row.stateID)[|p|..] == row.stateID && (p + other.stateID)[|p|..] == other.stateID;
  }

  /** The states of a status that the store lists for a shard. */
  ghost function Mine(states: map<string, MemoryStore.StateRow>, status: string, shardIndex: int, shardCount: int): set<string> {
    if Panics(shardCount) then {} else MemoryStore.Listed(states, status, shardIndex, shardCount)
  }

  /** One attempt for each of the keys, none of them refused as another instance's. */
  ghost predicate Covers(attempts: seq<Attempt>, keys: set<string>, states: map<string, MemoryStore.StateRow>) {
    && (forall k :: k in keys <==> exists i :: 0 <= i < |attempts| && attempts[i].key == k)
    && (forall i, j :: 0 <= i < j < |attempts| ==> attempts[i].key != attempts[j].key)
    && (forall i :: 0 <= i < |attempts| ==> ConcernsThisInstance(attempts[i].verdict) && attempts[i].key in states)
  }

  /** What one submission adds to the queue. */
  function TaskOf(verdict: Verdict, row: MemoryStore.StateRow, now: int): multiset<Task> {
    if verdict.Accepted? then multiset{RehydrationTask(row, now)} else multiset{}
  }

  /** What one instance's rehydration attempts. */
  ghost predicate IsRehydration(attempts: seq<Attempt>, states: map<string, MemoryStore.StateRow>, shardIndex: int, shardCount: int) {
    Covers(attempts, Mine(states, "pending", shardIndex, shardCount) + Mine(states, "drifted", shardIndex, shardCount), states)
  }

  /** The tasks of the accepted attempts. */
  function AcceptedTasks(states: map<string, MemoryStore.StateRow>, attempts: seq<Attempt>, now: int): multiset<Task> {
    if attempts == [] then multiset{} else
    AcceptedTasks(states, attempts[..|attempts|-1], now) + TaskAt(states, attempts[|attempts|-1], now)
  }

  lemma {:induction false} AcceptedInTwo(states: map<string, MemoryStore.StateRow>, a: seq<Attempt>, b: seq<Attempt>, now: int)
    ensures AcceptedTasks(states, a + b, now) == AcceptedTasks(states, a, now) + AcceptedTasks(states, b, now)
  {
    if b == [] {
      assert a + b == a;
    } else {
      var earlier := b[..|b|-1];
      AcceptedInTwo(states, a, earlier, now);
      assert (a + b)[..|a + b|-1] == a + earlier;
      LastAttemptAdds(states, a + b, now, AcceptedTasks(states, a, now) + AcceptedTasks(states, earlier, now), b[|b|-1]);
      LastAttemptAdds(states, b, now, AcceptedTasks(states, earlier, now), b[|b|-1]);
      Regroup(AcceptedTasks(states, a, now), AcceptedTasks(states, earlier, now), TaskAt(states, b[|b|-1], now));
    }
  }

  function TaskAt(states: map<string, MemoryStore.StateRow>, a: Attempt, now: int): multiset<Task> {
    if a.key in states then TaskOf(a.verdict, states[a.key], now) else multiset{}
  }

  lemma LastAttemptAdds(states: map<string, MemoryStore.StateRow>, attempts: seq<Attempt>, now: int, earlier: multiset<Task>, last: Attempt)
    requires attempts != [] && attempts[|attempts|-1] == last && AcceptedTasks(states, attempts[..|attempts|-1], now) == earlier
    ensures AcceptedTasks(states, attempts, now) == earlier + TaskAt(states, last, now)
  {
  }

  lemma Regroup(x: multiset<Task>, y: multiset<Task>, z: multiset<Task>)
    ensures (x + y) + z == x + (y + z)
  {
  }

  lemma AttemptAdds(states: map<string, MemoryStore.StateRow>, attempts: seq<Attempt>, a: Attempt, now: int)
    requires a.key in states
    ensures AcceptedTasks(states, attempts + [a], now) == AcceptedTasks(states, attempts, now) + TaskOf(a.verdict, states[a.key], now)
  {
    assert (attempts + [a])[..|attempts|] == attempts;
  }

  /** One attempt per key, in order. */
  ghost predicate Answers(attempts: seq<Attempt>, keys: seq<string>) {
    |attempts| == |keys|
    && forall i :: 0 <= i < |keys| ==> attempts[i].key == keys[i] && ConcernsThisInstance(attempts[i].verdict)
  }

  lemma AnswersNext(attempts: seq<Attempt>, keys: seq<string>, i: nat, a: Attempt)
    requires i < |keys| && Answers(attempts, keys[..i]) && a.key == keys[i] && ConcernsThisInstance(a.verdict)
    ensures Answers(attempts + [a], keys[..i+1])
  {
  }

  /** Keys of states that this shard lists. */
  ghost predicate AllMine(keys: seq<string>, states: map<string, MemoryStore.StateRow>, shardIndex: int, shardCount: int) {
    forall k :: k in keys ==> k in states && !Panics(shardCount) && Owns(states[k].nodeID, shardIndex, shardCount)
  }

  lemma ListedCovers(attempts: seq<Attempt>, listed: seq<string>, keys: set<string>, states: map<string, MemoryStore.StateRow>)
    requires Answers(attempts, listed) && keys <= states.Keys && forall k :: k in listed <==> k in keys
    requires forall i, j :: 0 <= i < j < |listed| ==> listed[i] != listed[j]
    ensures Covers(attempts, keys, states)
  {
    forall k | k in keys ensures exists i :: 0 <= i < |attempts| && attempts[i].key == k {
      var i :| 0 <= i < |listed| && listed[i] == k;
      assert attempts[i].key == k;
    }
    forall i | 0 <= i < |attempts| ensures attempts[i].key in keys {
      assert listed[i] in listed;
    }
  }

  lemma OnlyCovered(attempts: seq<Attempt>, keys: set<string>, states: map<string, MemoryStore.StateRow>)
    requires Covers(attempts, keys, states)
    ensures attempts == [] || attempts[0].key in keys
  {
  }

  lemma CoversBoth(a: seq<Attempt>, b: seq<Attempt>, keysA: set<string>, keysB: set<string>, states: map<string, MemoryStore.StateRow>)
    requires Covers(a, keysA, states) && Covers(b, keysB, states) && keysA !! keysB
    ensures Covers(a + b, keysA + keysB, states)
  {
    var c := a + b;
    forall k | k in keysA + keysB ensures exists i :: 0 <= i < |c| && c[i].key == k {
      if k in keysA {
        var i :| 0 <= i < |a| && a[i].key == k;
        assert c[i].key == k;
      } else {
        var i :| 0 <= i < |b| && b[i].key == k;
        assert c[|a| + i].key == k;
      }
    }
    forall i | 0 <= i < |c| ensures if i < |a| then c[i].key in keysA else c[i].key in keysB {
      assert i < |a| ==> c[i] == a[i];
      assert i >= |a| ==> c[i] == b[i - |a|];
    }
  }

  class Scheduler {
    var queue: ThreadSafeQueue
    const breaker: CircuitBreaker
    const shardIndex: int
    const shardCount: int
    const maxConcurrency: int
    var nodeHealth: map<NodeID, NodeHealth>
    var domainFailures: map<string, nat>
    var domainTasks: map<string, int>
    var activeTasks: int
    var mode: SchedulerMode
    var admissionMode: AdmissionMode
    var active: bool

    predicate Valid() {
      shardCount >= 1
    }

    ghost function View(): Counters
      reads this
    {
      Counters(activeTasks, domainTasks, domainFailures)
    }

    ghost function GateFor(task: Task): Gate
      requires Valid()
      reads this, queue
    {
      Gate(active, mode, admissionMode, task.nodeID in nodeHealth && nodeHealth[task.nodeID].canary,
           Quotient(activeTasks, maxConcurrency), |queue.pq|, shardIndex, shardCount)
    }

    constructor (shardIndex: int, shardCount: int, maxConcurrency: int, breakerThreshold: int)
      ensures Valid() && fresh(queue) && fresh(breaker) && queue.pq == [] && queue.timers == []
      ensures !active && View() == Counters(0, map[], map[])
      ensures this.shardIndex == shardIndex && this.shardCount == if shardCount < 1 then 1 else shardCount
    {
      queue := new ThreadSafeQueue();
      breaker := new CircuitBreaker(breakerThreshold);
      this.shardIndex, this.shardCount := shardIndex, if shardCount < 1 then 1 else shardCount;
      this.maxConcurrency := maxConcurrency;
      nodeHealth, domainFailures, domainTasks, activeTasks := map[], map[], map[], 0;
      mode, admissionMode, active := Normal, AdmissionNormal, false;
    }

    /** Admission. An accepted task is stamped and pushed; a rejected one leaves the queue alone,
        though its question may have moved the breaker. */
    method Submit(task: Task, now: int, clock: Clock) returns (verdict: Verdict)
      requires Valid()
      modifies queue`pq, breaker
      ensures (breaker.View(), verdict) == Decide(old(GateFor(task)), breaker.config, old(breaker.View()), task, now)
      ensures if verdict.Accepted? then Pushes(old(queue.pq), Stamped(task, now), queue.pq, clock) else queue.pq == old(queue.pq)
      ensures verdict.Accepted? <==>
                Admissible(old(GateFor(task)), Admitted(breaker.config, old(breaker.View()), Ask(old(|queue.pq|), Quotient(activeTasks, maxConcurrency), now)), task)
      ensures !active || admissionMode != AdmissionNormal ==>
                !verdict.Accepted? && queue.pq == old(queue.pq) && breaker.View() == old(breaker.View())
    {
      AcceptedExactly(GateFor(task), breaker.config, breaker.View(), task, now);
      var isActive, currentMode := active, mode;
      var isCanary := task.nodeID in nodeHealth && nodeHealth[task.nodeID].canary;
      var saturation := Quotient(activeTasks, maxConcurrency);
      if !isActive {
        return NotLeader;
      }
      match admissionMode
      case AdmissionFreeze => return SystemFrozen;
      case AdmissionDrain => return SystemDraining;
      case AdmissionNormal =>
      var queueDepth := |queue.pq|;
      if !isCanary {
        var admitted := breaker.ShouldAdmit(queueDepth, saturation, now);
        if !admitted {
          return CircuitOpen;
        }
      }
      if currentMode == ReadOnly || currentMode == Draining {
        return NoNewTasks;
      }
      if currentMode == Degraded && task.priority > 5 {
        return LowPriority;
      }
      if |queue.pq| > 1000 && task.priority > 0 {
        return QueueFull;
      }
      var stamped := task;
      if task.submitTime == ZERO_TIME {
        stamped := task.(submitTime := now);
      }
      if shardCount > 1 {
        if Width(shardCount) == 0 {
          return ShardPanic;
        }
        var h := FnvHash(task.nodeID);
        if h % Width(shardCount) != shardIndex {
          return WrongShard;
        }
      }
      queue.Push(stamped, clock);
      verdict := Accepted;
    }

    /** Leadership lost: the queue object is replaced, not emptied, so timers keep the old one. */
    method Stop()
      modifies this`active, this`queue
      ensures !active && fresh(queue) && queue.pq == [] && queue.timers == []
      ensures old(queue).pq == old(queue.pq) && old(queue).timers == old(queue.timers)
    {
      active := false;
      queue := new ThreadSafeQueue();
    }

    /** One worker iteration that nothing interleaves with; None when the queue is empty. */
    method ProcessNextTask(limits: Limits, clock: Clock) returns (done: Option<(Task, Iteration)>)
      modifies this`activeTasks, this`domainTasks, queue
      ensures old(queue.pq) == [] ==> done == None && View() == old(View()) && queue.timers == old(queue.timers)
      ensures Pops(old(queue.pq), if done.None? then None else Some(done.value.0), queue.pq, clock)
      ensures done.Some? ==>
                var task, it := done.value.0, done.value.1;
                && it == Route(old(View()), Quarantined(task), task.failureDomain, limits)
                && View() == CountersAfter(old(View()), it, task.failureDomain)
                && queue.timers == old(queue.timers) + (if RetryDelay(it).Some? then [Delayed(task, RetryDelay(it).value)] else [])
                && GoesTo(task.nodeID in nodeHealth && nodeHealth[task.nodeID].quarantined, old(View()), task.failureDomain, limits, it)
                && WaitsFor(limits, it, RetryDelay(it))
                && CountsOne(old(View()), View(), it == Dispatch, task.failureDomain)
    {
      if |queue.pq| == 0 {
        return None;
      }
      var popped := queue.Pop(clock);
      RouteMeans(View(), Quarantined(popped.value), popped.value.failureDomain, limits);
      var it := RouteTask(popped.value, limits);
      done := Some((popped.value, it));
    }

    /** The iteration from the health check on. */
    method RouteTask(task: Task, limits: Limits) returns (it: Iteration)
      modifies this`activeTasks, this`domainTasks, queue`timers
      ensures it == Route(old(View()), Quarantined(task), task.failureDomain, limits)
      ensures View() == CountersAfter(old(View()), it, task.failureDomain)
      ensures queue.timers == old(queue.timers) + (if RetryDelay(it).Some? then [Delayed(task, RetryDelay(it).value)] else [])
    {
      var domain := task.failureDomain;
      if task.nodeID in nodeHealth && nodeHealth[task.nodeID].quarantined {
        return QuarantineDrop;
      }
      var saturated := DomainSaturated(domain);
      if saturated {
        queue.PushDelayed(task, 2 * SECOND);
        return DomainThrottle;
      }
      if limits.nodeDelay.Some? {
        queue.PushDelayed(task, limits.nodeDelay.value);
        return NodeLimit(limits.nodeDelay.value);
      }
      if limits.tenantDelay.Some? {
        queue.PushDelayed(task, limits.tenantDelay.value);
        return TenantLimit(limits.tenantDelay.value);
      }
      if activeTasks >= 100 {
        queue.PushDelayed(task, 1 * SECOND);
        return BudgetFull;
      }
      activeTasks := activeTasks + 1;
      if domain != "" {
        domainTasks := domainTasks[domain := (if domain in domainTasks then domainTasks[domain] else 0) + 1];
      }
      it := Dispatch;
    }

    method DomainSaturated(domain: string) returns (saturated: bool)
      ensures saturated <==> domain != "" && Runs.CountOf(domainTasks, domain) >= Runs.LimitOf(Failures(View(), domain))
    {
      if domain == "" {
        return false;
      }
      var failures := if domain in domainFailures then domainFailures[domain] else 0;
      var running := if domain in domainTasks then domainTasks[domain] else 0;
      var limit := 10;
      if failures > 5 {
        limit := 1;
      }
      saturated := running >= limit;
    }

    predicate Quarantined(task: Task)
      reads this`nodeHealth
    {
      task.nodeID in nodeHealth && nodeHealth[task.nodeID].quarantined
    }

    /** The deferred part of the completion goroutine. A panic leaves no error. */
    method Complete(task: Task, failed: bool)
      modifies this`activeTasks, this`domainTasks, this`domainFailures
      ensures View() == CountersAfterCompletion(old(View()), task.failureDomain, failed)
      ensures activeTasks == old(activeTasks) - 1
      ensures forall d :: Failures(View(), d) == Failures(old(View()), d) + if failed && d == task.failureDomain && d != "" then 1 else 0
    {
      CompletionMeans(View(), task.failureDomain, failed);
      var domain := task.failureDomain;
      activeTasks := activeTasks - 1;
      if domain != "" {
        domainTasks := domainTasks[domain := (if domain in domainTasks then domainTasks[domain] else 0) - 1];
        if failed {
          domainFailures := domainFailures[domain := (if domain in domainFailures then domainFailures[domain] else 0) + 1];
        }
      }
    }

    /** Submits the task of one state of this shard. */
    method SubmitState(row: MemoryStore.StateRow, now: int, clock: Clock) returns (verdict: Verdict)
      requires Valid() && active && !Panics(shardCount) && Owns(row.nodeID, shardIndex, shardCount)
      modifies queue`pq, breaker
      ensures ConcernsThisInstance(verdict)
      ensures multiset(queue.pq) == multiset(old(queue.pq)) + TaskOf(verdict, row, now)
    {
      var task := RehydrationTask(row, now);
      assert Stamped(task, now) == task;
      verdict := Submit(task, now, clock);
    }

    /** Submits every state of one status that the listing gives for this shard. */
    method SubmitListed(store: MemoryStore.MemoryStore, status: string, now: int, clock: Clock)
      returns (attempts: Option<seq<Attempt>>)
      requires Valid() && active
      modifies queue`pq, breaker
      ensures attempts.None? <==> Panics(shardCount) && exists k :: k in store.states && store.states[k].status == status
      ensures attempts.None? ==> queue.pq == old(queue.pq)
      ensures attempts.Some? ==> Covers(attempts.value, Mine(store.states, status, shardIndex, shardCount), store.states)
      ensures attempts.Some? ==> multiset(queue.pq) == multiset(old(queue.pq)) + AcceptedTasks(store.states, attempts.value, now)
    {
      var listed := store.ListStatesByStatus(status, shardIndex, shardCount);
      if listed.None? {
        return None;
      }
      var answers := SubmitKeys(store, listed.value, now, clock);
      ListedCovers(answers, listed.value, Mine(store.states, status, shardIndex, shardCount), store.states);
      attempts := Some(answers);
    }

    /** The loop over the listing. */
    method SubmitKeys(store: MemoryStore.MemoryStore, keys: seq<string>, now: int, clock: Clock) returns (answers: seq<Attempt>)
      requires Valid() && active
      requires AllMine(keys, store.states, shardIndex, shardCount)
      modifies queue`pq, breaker
      ensures Answers(answers, keys)
      ensures multiset(queue.pq) == multiset(old(queue.pq)) + AcceptedTasks(store.states, answers, now)
    {
      answers := [];
      for i := 0 to |keys|
        invariant Answers(answers, keys[..i])
        invariant multiset(queue.pq) == multiset(old(queue.pq)) + AcceptedTasks(store.states, answers, now)
      {
        ghost var k := keys[i];
        assert k in store.states && !Panics(shardCount) && Owns(store.states[k].nodeID, shardIndex, shardCount) by {
          assert k in keys;
        }
        var verdict := SubmitState(store.states[keys[i]], now, clock);
        AttemptAdds(store.states, answers, Attempt(keys[i], verdict), now);
        AnswersNext(answers, keys, i, Attempt(keys[i], verdict));
        answers := answers + [Attempt(keys[i], verdict)];
      }
      assert keys[..|keys|] == keys;
    }

    /** Activates the scheduler and submits every pending or drifted state of its shard, each once. No
        such submission is turned away for the shard or for the leadership, and the queue grows by the
        accepted ones. None stands for the panic of the listing. */
    method RehydrateQueue(store: MemoryStore.MemoryStore, now: int, clock: Clock) returns (attempts: Option<seq<Attempt>>)
      requires Valid()
      modifies this`active, queue`pq, breaker
      ensures active
      ensures attempts.None? ==> Panics(shardCount) && multiset(queue.pq) == multiset(old(queue.pq))
      ensures attempts.Some? ==> IsRehydration(attempts.value, store.states, shardIndex, shardCount)
      ensures attempts.Some? ==> multiset(queue.pq) == multiset(old(queue.pq)) + AcceptedTasks(store.states, attempts.value, now)
    {
      active := true;
      var pending := SubmitListed(store, "pending", now, clock);
      if pending.None? {
        return None;
      }
      var drifted := SubmitListed(store, "drifted", now, clock);
      if drifted.None? {
        OnlyCovered(pending.value, {}, store.states);
        return None;
      }
      AcceptedInTwo(store.states, pending.value, drifted.value, now);
      CoversBoth(pending.value, drifted.value, Mine(store.states, "pending", shardIndex, shardCount),
                 Mine(store.states, "drifted", shardIndex, shardCount), store.states);
      attempts := Some(pending.value + drifted.value);
    }
  }

  // ---------- Listing and admission agree ----------

  /** Of the instances 0 .. shardCount-1 exactly one accepts a node, whatever the node. */
  lemma ExactlyOneShardAccepts(id: NodeID, shardCount: int)
    requires shardCount >= 1 && !Panics(shardCount)
    ensures exists n :: 0 <= n < shardCount && ShardVerdict(id, n, shardCount).Accepted?
    ensures forall i, j ::
              && 0 <= i < shardCount && 0 <= j < shardCount
              && ShardVerdict(id, i, shardCount).Accepted? && ShardVerdict(id, j, shardCount).Accepted?
              ==> i == j
  {
    var home := if shardCount > 1 then ShardOf(id, shardCount) else 0;
    assert 0 <= home < shardCount && ShardVerdict(id, home, shardCount).Accepted?;
  }

  /** A submission that an instance accepts, whatever else it had to pass, is of a node whose states no
      other instance lists, and this one does. */
  lemma AcceptedWhereListed(states: map<string, MemoryStore.StateRow>, k: string, g: Gate, cfg: Config, b: Breaker, task: Task, now: int, i: int)
    requires k in states && task.nodeID == states[k].nodeID && Decide(g, cfg, b, task, now).1.Accepted?
    requires 0 <= g.shardIndex < g.shardCount && 0 <= i < g.shardCount
    ensures !Panics(g.shardCount)
    ensures k in MemoryStore.Listed(states, states[k].status, i, g.shardCount) <==> i == g.shardIndex
  {
  }

  /** After every instance has rehydrated its shard of one store, each pending or drifted state has been
      attempted exactly once by exactly one of them, and nothing else has been attempted. */
  lemma EveryStateRehydratedOnce(states: map<string, MemoryStore.StateRow>, shardCount: int, runs: seq<seq<Attempt>>, k: string)
    requires shardCount >= 1 && !Panics(shardCount) && |runs| == shardCount
    requires forall i :: 0 <= i < shardCount ==> IsRehydration(runs[i], states, i, shardCount)
    ensures k in states && states[k].status in ["pending", "drifted"] <==> exists i, n :: AttemptedAt(runs, i, n, k)
    ensures forall i, j, n, m :: AttemptedAt(runs, i, n, k) && AttemptedAt(runs, j, m, k) ==> i == j && n == m
  {
    if k in states && states[k].status in ["pending", "drifted"] {
      MemoryStore.ListingsPartition(states, states[k].status, shardCount, k);
      var i :| 0 <= i < shardCount && k in MemoryStore.Listed(states, states[k].status, i, shardCount);
      assert IsRehydration(runs[i], states, i, shardCount);
      assert k in Mine(states, "pending", i, shardCount) + Mine(states, "drifted", i, shardCount);
      var n :| 0 <= n < |runs[i]| && runs[i][n].key == k;
      assert AttemptedAt(runs, i, n, k);
    }
    forall i, n | AttemptedAt(runs, i, n, k)
      ensures k in states && states[k].status in ["pending", "drifted"]
              && k in MemoryStore.Listed(states, states[k].status, i, shardCount)
    {
      assert IsRehydration(runs[i], states, i, shardCount);
      assert k in Mine(states, "pending", i, shardCount) + Mine(states, "drifted", i, shardCount);
    }
    forall i, j, n, m | AttemptedAt(runs, i, n, k) && AttemptedAt(runs, j, m, k) ensures i == j && n == m {
      MemoryStore.ListingsPartition(states, states[k].status, shardCount, k);
      assert IsRehydration(runs[i], states, i, shardCount);
    }
  }

  /** The instance that accepts a submission for a pending or drifted state is the one whose rehydration
      attempts that state. */
  lemma AcceptedIsRehydratedHere(states: map<string, MemoryStore.StateRow>, runs: seq<seq<Attempt>>, k: string, g: Gate, cfg: Config, b: Breaker,
                                 task: Task, now: int)
    requires 0 <= g.shardIndex < g.shardCount && |runs| == g.shardCount
    requires !Panics(g.shardCount) && forall i :: 0 <= i < g.shardCount ==> IsRehydration(runs[i], states, i, g.shardCount)
    requires k in states && states[k].status in ["pending", "drifted"] && task.nodeID == states[k].nodeID
    requires Decide(g, cfg, b, task, now).1.Accepted?
    ensures exists n :: AttemptedAt(runs, g.shardIndex, n, k)
    ensures forall i, n :: AttemptedAt(runs, i, n, k) ==> i == g.shardIndex
  {
    EveryStateRehydratedOnce(states, g.shardCount, runs, k);
    var i, n :| AttemptedAt(runs, i, n, k);
    assert IsRehydration(runs[i], states, i, g.shardCount);
    assert k in Mine(states, "pending", i, g.shardCount) + Mine(states, "drifted", i, g.shardCount);
    AcceptedWhereListed(states, k, g, cfg, b, task, now, i);
  }

  /** Attempt n of instance i is for the key. */
  predicate AttemptedAt(runs: seq<seq<Attempt>>, i: int, n: int, k: string) {
    0 <= i < |runs| && 0 <= n < |runs[i]| && runs[i][n].key == k
  }

  // ---------- The iteration follows the runs ----------

  /** The uninterrupted steps of SchedulerRuns that an iteration stands for. */
  function StepsOf(job: Runs.Job, it: Iteration): seq<Runs.Step> {
    [Runs.Pop(job)] + if it.QuarantineDrop? then [Runs.DropQuarantined] else [Runs.CheckDomain] + LaterSteps(it)
  }

  function LaterSteps(it: Iteration): seq<Runs.Step> {
    match it
    case NodeLimit(_) => [Runs.DelayForLimit]
    case TenantLimit(_) => [Runs.DelayForLimit]
    case BudgetFull => [Runs.PassLimits, Runs.CheckBudget]
    case Dispatch => [Runs.PassLimits, Runs.CheckBudget, Runs.Launch]
    case _ => []
  }

  /** The state after the steps, if each is enabled in turn. */
  function Follow(s: Runs.State, steps: seq<Runs.Step>): Option<Runs.State>
    decreases |steps|
  {
    if steps == [] then Some(s)
    else if !Runs.Enabled(s, steps[0]) then None
    else Follow(Runs.Apply(s, steps[0]), steps[1..])
  }

  lemma FollowOne(s: Runs.State, step: Runs.Step, rest: seq<Runs.Step>)
    requires Runs.Enabled(s, step)
    ensures Follow(s, [step] + rest) == Follow(Runs.Apply(s, step), rest)
  {
    assert ([step] + rest)[1..] == rest;
  }

  function CountersOf(s: Runs.State): Counters {
    Counters(s.activeTasks, s.domainTasks, s.domainFailures)
  }

  function AfterLaterSteps(s: Runs.State, job: Runs.Job, it: Iteration): Runs.State
    requires s.queues != []
  {
    if it.Dispatch? then
      s.(worker := Runs.Resting, activeTasks := s.activeTasks + 1, inFlight := s.inFlight + [job],
         dispatched := s.dispatched + [job], domainTasks := Runs.Bumped(s.domainTasks, job.task.failureDomain, 1))
    else Runs.Delay(s, job)
  }

  /** From the cleared task on. */
  lemma LaterStepsFollowRuns(s: Runs.State, job: Runs.Job, it: Iteration)
    requires s.queues != [] && s.worker == Runs.Admitted(job)
    requires it.NodeLimit? || it.TenantLimit? || it == if s.activeTasks >= Runs.MAX_ACTIVE then BudgetFull else Dispatch
    ensures Follow(s, LaterSteps(it)) == Some(AfterLaterSteps(s, job, it))
  {
    var steps := LaterSteps(it);
    if it.NodeLimit? || it.TenantLimit? {
      assert steps == [Runs.DelayForLimit] + [];
      FollowOne(s, Runs.DelayForLimit, []);
    } else {
      var rest := steps[1..];
      assert steps == [Runs.PassLimits] + rest;
      FollowOne(s, Runs.PassLimits, rest);
      var limited := Runs.Apply(s, Runs.PassLimits);
      assert rest == [Runs.CheckBudget] + rest[1..];
      FollowOne(limited, Runs.CheckBudget, rest[1..]);
      if it.Dispatch? {
        assert rest[1..] == [Runs.Launch] + [];
        FollowOne(Runs.Apply(limited, Runs.CheckBudget), Runs.Launch, []);
      }
    }
  }

  /** Where the task is after the iteration, with the rest of the state as it was. */
  function Outcome(s: Runs.State, job: Runs.Job, it: Iteration): Runs.State
    requires s.queues != []
  {
    var q := Runs.Current(s);
    var popped := Runs.WithCurrent(s, q.(queue := q.queue - multiset{job}));
    match it
    case QuarantineDrop => popped.(dropped := s.dropped + multiset{job})
    case Dispatch =>
      popped.(activeTasks := s.activeTasks + 1, inFlight := s.inFlight + [job], dispatched := s.dispatched + [job],
              domainTasks := Runs.Bumped(s.domainTasks, job.task.failureDomain, 1))
    case _ => Runs.WithCurrent(s, Runs.QueueState(q.queue - multiset{job}, q.timers + multiset{job}))
  }

  lemma DelayedOutcome(s: Runs.State, job: Runs.Job)
    requires s.queues != [] && s.worker.Resting? && job in Runs.Current(s).queue
    ensures Runs.Delay(Runs.Apply(s, Runs.Pop(job)), job) == Outcome(s, job, DomainThrottle)
  {
    var popped := Runs.Apply(s, Runs.Pop(job));
    assert Runs.Delay(popped, job).queues == Outcome(s, job, DomainThrottle).queues;
  }

  lemma FollowTwo(s: Runs.State, first: Runs.Step, second: Runs.Step)
    requires Runs.Enabled(s, first) && Runs.Enabled(Runs.Apply(s, first), second)
    ensures Follow(s, [first] + [second]) == Some(Runs.Apply(Runs.Apply(s, first), second))
  {
    FollowOne(s, first, [second]);
    FollowOne(Runs.Apply(s, first), second, []);
    assert [second] + [] == [second];
  }

  lemma QuarantinedOutcome(s: Runs.State, job: Runs.Job)
    requires s.queues != [] && s.worker.Resting? && job in Runs.Current(s).queue
    requires job.task.nodeID in s.quarantined
    ensures Runs.Apply(Runs.Apply(s, Runs.Pop(job)), Runs.DropQuarantined) == Outcome(s, job, QuarantineDrop)
  {
  }

  lemma QuarantineFollowsRuns(s: Runs.State, job: Runs.Job)
    requires s.queues != [] && s.worker.Resting? && job in Runs.Current(s).queue
    requires job.task.nodeID in s.quarantined
    ensures Follow(s, StepsOf(job, QuarantineDrop)) == Some(Outcome(s, job, QuarantineDrop))
  {
    FollowTwo(s, Runs.Pop(job), Runs.DropQuarantined);
    QuarantinedOutcome(s, job);
  }

  lemma ThrottleFollowsRuns(s: Runs.State, job: Runs.Job)
    requires s.queues != [] && s.worker.Resting? && job in Runs.Current(s).queue
    requires job.task.nodeID !in s.quarantined
    requires Runs.Saturated(s, job.task.failureDomain)
    ensures Follow(s, StepsOf(job, DomainThrottle)) == Some(Outcome(s, job, DomainThrottle))
  {
    FollowTwo(s, Runs.Pop(job), Runs.CheckDomain);
    DelayedOutcome(s, job);
    assert [Runs.CheckDomain] + [] == [Runs.CheckDomain];
  }

  /** Popping a task of a domain that is not saturated and clearing it. */
  lemma ClearingFollowsRuns(s: Runs.State, job: Runs.Job, it: Iteration)
    requires s.queues != [] && s.worker.Resting? && job in Runs.Current(s).queue
    requires job.task.nodeID !in s.quarantined
    requires !Runs.Saturated(s, job.task.failureDomain) && !it.QuarantineDrop?
    ensures Follow(s, StepsOf(job, it)) == Follow(Runs.Apply(s, Runs.Pop(job)).(worker := Runs.Admitted(job)), LaterSteps(it))
  {
    var popped := Runs.Apply(s, Runs.Pop(job));
    FollowOne(s, Runs.Pop(job), [Runs.CheckDomain] + LaterSteps(it));
    FollowOne(popped, Runs.CheckDomain, LaterSteps(it));
    assert Runs.Apply(popped, Runs.CheckDomain) == popped.(worker := Runs.Admitted(job));
  }

  lemma ClearedOutcome(s: Runs.State, job: Runs.Job, it: Iteration)
    requires s.queues != [] && s.worker.Resting? && job in Runs.Current(s).queue
    requires it.NodeLimit? || it.TenantLimit? || it.BudgetFull? || it.Dispatch?
    ensures AfterLaterSteps(Runs.Apply(s, Runs.Pop(job)).(worker := Runs.Admitted(job)), job, it) == Outcome(s, job, it)
  {
    DelayedOutcome(s, job);
    var popped := Runs.Apply(s, Runs.Pop(job));
    assert Runs.Delay(popped.(worker := Runs.Admitted(job)), job) == Runs.Delay(popped, job);
  }

  lemma ClearedFollowsRuns(s: Runs.State, job: Runs.Job, it: Iteration)
    requires s.queues != [] && s.worker.Resting? && job in Runs.Current(s).queue
    requires job.task.nodeID !in s.quarantined
    requires !Runs.Saturated(s, job.task.failureDomain)
    requires it.NodeLimit? || it.TenantLimit? || it == if s.activeTasks >= Runs.MAX_ACTIVE then BudgetFull else Dispatch
    ensures Follow(s, StepsOf(job, it)) == Some(Outcome(s, job, it))
  {
    var popped := Runs.Apply(s, Runs.Pop(job));
    var cleared := popped.(worker := Runs.Admitted(job));
    ClearingFollowsRuns(s, job, it);
    LaterStepsFollowRuns(cleared, job, it);
    ClearedOutcome(s, job, it);
  }

  /** A completion's counters are those of the runs. */
  lemma CompletionFollowsRuns(s: Runs.State, i: nat, failed: bool)
    requires Runs.Enabled(s, Runs.Complete(i, failed))
    ensures CountersOf(Runs.Apply(s, Runs.Complete(i, failed)))
              == CountersAfterCompletion(CountersOf(s), s.inFlight[i].task.failureDomain, failed)
  {
  }

  lemma StepsFollowRuns(s: Runs.State, job: Runs.Job, limits: Limits, it: Iteration)
    requires s.queues != [] && s.worker.Resting? && job in Runs.Current(s).queue
    requires it == Route(CountersOf(s), job.task.nodeID in s.quarantined, job.task.failureDomain, limits)
    ensures Follow(s, StepsOf(job, it)) == Some(Outcome(s, job, it))
  {
    if it.QuarantineDrop? { QuarantineFollowsRuns(s, job); }
    else if it.DomainThrottle? { ThrottleFollowsRuns(s, job); }
    else { ClearedFollowsRuns(s, job, it); }
  }

  /** What ProcessNextTask does to the counters and where it puts its task is what the steps of the
      runs do, one after the other. */
  lemma IterationFollowsRuns(s: Runs.State, job: Runs.Job, limits: Limits)
    requires s.queues != [] && s.worker.Resting? && job in Runs.Current(s).queue
    ensures var it := Route(CountersOf(s), job.task.nodeID in s.quarantined, job.task.failureDomain, limits);
            && Follow(s, StepsOf(job, it)) == Some(Outcome(s, job, it))
            && CountersOf(Outcome(s, job, it)) == CountersAfter(CountersOf(s), it, job.task.failureDomain)
  {
    var it := Route(CountersOf(s), job.task.nodeID in s.quarantined, job.task.failureDomain, limits);
    StepsFollowRuns(s, job, limits, it);
    OutcomeCounts(s, job, it);
  }

  lemma OutcomeCounts(s: Runs.State, job: Runs.Job, it: Iteration)
    requires s.queues != []
    ensures CountersOf(Outcome(s, job, it)) == CountersAfter(CountersOf(s), it, job.task.failureDomain)
  {
  }
}
