/**
 Every run of the scheduler's task flow (control_plane/scheduler/scheduler.go): submissions, stops,
 timers, completions and one worker whose iteration is cut at every point where another goroutine
 can run. The queue is seen as the multiset of its tasks; its order is the matter of TaskQueue.
 */
module SchedulerRuns {
  import opened Sharding
  import opened TaskOrder

  /** One accepted submission. */
  datatype Job = Job(id: nat, task: Task)

  /** A queue object with the timers that will push to it. */
  datatype QueueState = QueueState(queue: multiset<Job>, timers: multiset<Job>)

  /** Where the worker stands, with the task it holds. */
  datatype Worker =
    | Resting
    | Popped(job: Job)          // popped, health not checked
    | Admitted(job: Job)        // failure domain checked
    | Limited(job: Job)         // node and tenant limits passed
    | Counted(job: Job)         // activeTasks incremented

  /** queues: every queue object so far; the scheduler's own is the last. */
  datatype State = State(
    queues: seq<QueueState>,
    active: bool,
    worker: Worker,
    inFlight: seq<Job>,
    activeTasks: int,
    domainTasks: map<string, int>,
    domainFailures: map<string, nat>,
    finished: multiset<Job>,
    dropped: multiset<Job>,
    accepted: multiset<Job>,
    nextID: nat,
    dispatched: seq<Job>,
    quarantined: set<NodeID>)

  datatype Step =
    | Accept(task: Task)
    | Activate
    | Stop
    | Fire(q: nat, job: Job)
    | Pop(job: Job)
    | DropQuarantined
    | CheckDomain
    | DelayForLimit
    | PassLimits
    | CheckBudget
    | Launch
    | Complete(i: nat, failed: bool)
    | SetHealth(node: NodeID, bad: bool)

  const MAX_ACTIVE := 100
  const DOMAIN_LIMIT := 10
  const FAILURE_THRESHOLD := 5

  const EMPTY_QUEUE := QueueState(multiset{}, multiset{})

  ghost predicate Init(s: State) {
    s == State([EMPTY_QUEUE], false, Resting, [], 0, map[], map[], multiset{}, multiset{}, multiset{}, 0, [], {})
  }

  function Current(s: State): QueueState
    requires s.queues != []
  {
    s.queues[|s.queues|-1]
  }

  function WithCurrent(s: State, q: QueueState): State
    requires s.queues != []
  {
    s.(queues := s.queues[|s.queues|-1 := q])
  }

  function CountOf(counts: map<string, int>, domain: string): int {
    if domain in counts then counts[domain] else 0
  }

  function FailuresOf(s: State, domain: string): nat {
    if domain in s.domainFailures then s.domainFailures[domain] else 0
  }

  /** The concurrency a failure domain is allowed. */
  function LimitOf(failures: nat): int {
    if failures > FAILURE_THRESHOLD then 1 else DOMAIN_LIMIT
  }

  predicate Saturated(s: State, domain: string) {
    domain != "" && CountOf(s.domainTasks, domain) >= LimitOf(FailuresOf(s, domain))
  }

  predicate Enabled(s: State, step: Step) {
    s.queues != [] &&
    match step
    case Accept(_) => s.active
    case Fire(q, job) => q < |s.queues| && job in s.queues[q].timers
    case Pop(job) => s.worker.Resting? && job in Current(s).queue
    case DropQuarantined => s.worker.Popped? && s.worker.job.task.nodeID in s.quarantined
    case CheckDomain => s.worker.Popped? && s.worker.job.task.nodeID !in s.quarantined
    case DelayForLimit => s.worker.Admitted?
    case PassLimits => s.worker.Admitted?
    case CheckBudget => s.worker.Limited?
    case Launch => s.worker.Counted?
    case Complete(i, _) => i < |s.inFlight|
    case _ => true
  }

  /** PushDelayed on the scheduler's present queue. */
  function Delay(s: State, job: Job): State
    requires s.queues != []
  {
    var q := Current(s);
    WithCurrent(s.(worker := Resting), q.(timers := q.timers + multiset{job}))
  }

  function Bumped(counts: map<string, int>, domain: string, amount: int): map<string, int> {
    if domain == "" then counts else counts[domain := CountOf(counts, domain) + amount]
  }

  function Apply(s: State, step: Step): State
    requires Enabled(s, step)
  {
    match step
    case Accept(task) =>
      var job, q := Job(s.nextID, task), Current(s);
      WithCurrent(s.(accepted := s.accepted + multiset{job}, nextID := s.nextID + 1), q.(queue := q.queue + multiset{job}))
    case Activate => s.(active := true)
    case Stop => s.(active := false, queues := s.queues + [EMPTY_QUEUE])
    case Fire(q, job) =>
      var from := s.queues[q];
      s.(queues := s.queues[q := QueueState(from.queue + multiset{job}, from.timers - multiset{job})])
    case Pop(job) =>
      var q := Current(s);
      WithCurrent(s.(worker := Popped(job)), q.(queue := q.queue - multiset{job}))
    case DropQuarantined => s.(worker := Resting, dropped := s.dropped + multiset{s.worker.job})
    case CheckDomain =>
      if Saturated(s, s.worker.job.task.failureDomain) then Delay(s, s.worker.job) else s.(worker := Admitted(s.worker.job))
    case DelayForLimit => Delay(s, s.worker.job)
    case PassLimits => s.(worker := Limited(s.worker.job))
    case CheckBudget =>
      if s.activeTasks >= MAX_ACTIVE then Delay(s, s.worker.job)
      else s.(worker := Counted(s.worker.job), activeTasks := s.activeTasks + 1)
    case Launch =>
      var job := s.worker.job;
      s.(worker := Resting, inFlight := s.inFlight + [job], dispatched := s.dispatched + [job],
         domainTasks := Bumped(s.domainTasks, job.task.failureDomain, 1))
    case Complete(i, failed) =>
      var job := s.inFlight[i];
      var domain := job.task.failureDomain;
      s.(inFlight := s.inFlight[..i] + s.inFlight[i+1..], finished := s.finished + multiset{job},
         activeTasks := s.activeTasks - 1, domainTasks := Bumped(s.domainTasks, domain, -1),
         domainFailures := if failed && domain != "" then s.domainFailures[domain := FailuresOf(s, domain) + 1]
                           else s.domainFailures)
    case SetHealth(node, bad) => s.(quarantined := if bad then s.quarantined + {node} else s.quarantined - {node})
  }

  ghost predicate IsRun(states: seq<State>, steps: seq<Step>) {
    && |states| == |steps| + 1
    && Init(states[0])
    && forall i {:trigger steps[i]} :: 0 <= i < |steps| ==> Enabled(states[i], steps[i]) && states[i+1] == Apply(states[i], steps[i])
  }

  // ---------- Where the tasks are ----------
  // Everything is counted for one job x at a time.

  function WaitsIn(q: QueueState, x: Job): nat {
    q.queue[x] + q.timers[x]
  }

  /** How often x waits in some queue object or timer. */
  function Waiting(queues: seq<QueueState>, x: Job): nat {
    if queues == [] then 0 else Waiting(queues[..|queues|-1], x) + WaitsIn(queues[|queues|-1], x)
  }

  function Holds(w: Worker, x: Job): nat {
    if w.Resting? || w.job != x then 0 else 1
  }

  function OutOfQueues(s: State, x: Job): nat {
    Holds(s.worker, x) + multiset(s.inFlight)[x] + s.finished[x] + s.dropped[x]
  }

  /** How often x is anywhere: queue, timer, the worker's hand, in flight, finished or dropped. */
  function Places(s: State, x: Job): nat {
    Waiting(s.queues, x) + OutOfQueues(s, x)
  }

  lemma {:induction false} WaitingUpdate(queues: seq<QueueState>, i: nat, q: QueueState, x: Job)
    requires i < |queues|
    ensures Waiting(queues[i := q], x) == Waiting(queues, x) - WaitsIn(queues[i], x) + WaitsIn(q, x)
  {
    var n := |queues| - 1;
    if i < n {
      WaitingUpdate(queues[..n], i, q, x);
      assert queues[i := q][..n] == queues[..n][i := q];
    } else {
      assert queues[i := q][..n] == queues[..n];
    }
  }

  lemma DelayMovesJob(s: State, job: Job, x: Job)
    requires s.queues != [] && !s.worker.Resting? && s.worker.job == job
    ensures Places(Delay(s, job), x) == Places(s, x)
  {
    WaitingUpdate(s.queues, |s.queues| - 1, Current(Delay(s, job)), x);
  }

  lemma CompletionMovesJob(jobs: seq<Job>, i: nat, x: Job)
    requires i < |jobs|
    ensures multiset(jobs)[x] == multiset(jobs[..i] + jobs[i+1..])[x] + (if jobs[i] == x then 1 else 0)
  {
    assert jobs == jobs[..i] + [jobs[i]] + jobs[i+1..];
  }

  /** Steps on one queue object. */
  lemma QueueStepConserves(s: State, step: Step, x: Job)
    requires Enabled(s, step) && Places(s, x) == s.accepted[x]
    requires step.Accept? || step.Pop? || step.Fire?
    ensures Places(Apply(s, step), x) == Apply(s, step).accepted[x]
  {
    var s' := Apply(s, step);
    var q := if step.Fire? then step.q else |s.queues| - 1;
    WaitingUpdate(s.queues, q, s'.queues[q], x);
    assert s'.queues == s.queues[q := s'.queues[q]];
  }

  /** The worker goes on with its task, or drops it. */
  lemma WorkerGoesOn(s: State, step: Step, x: Job)
    requires Enabled(s, step) && Places(s, x) == s.accepted[x] && Apply(s, step).queues == s.queues
    requires step.CheckDomain? || step.PassLimits? || step.CheckBudget? || step.DropQuarantined?
    requires Apply(s, step) != Delay(s, s.worker.job)
    ensures Places(Apply(s, step), x) == Apply(s, step).accepted[x]
  {
  }

  /** Steps of the worker that may give its task back to a timer. */
  lemma WorkerStepConserves(s: State, step: Step, x: Job)
    requires Enabled(s, step) && Places(s, x) == s.accepted[x]
    requires step.CheckDomain? || step.DelayForLimit? || step.PassLimits? || step.CheckBudget? || step.DropQuarantined?
    ensures Places(Apply(s, step), x) == Apply(s, step).accepted[x]
  {
    if Apply(s, step) == Delay(s, s.worker.job) {
      DelayMovesJob(s, s.worker.job, x);
    } else {
      WorkerGoesOn(s, step, x);
    }
  }

  lemma StepConserves(s: State, step: Step, x: Job)
    requires Enabled(s, step) && Places(s, x) == s.accepted[x]
    ensures Places(Apply(s, step), x) == Apply(s, step).accepted[x]
  {
    match step
    case Accept(_) => QueueStepConserves(s, step, x);
    case Pop(_) => QueueStepConserves(s, step, x);
    case Fire(_, _) => QueueStepConserves(s, step, x);
    case Stop => StopConserves(s, x);
    case Complete(i, failed) => CompletionConserves(s, i, failed, x);
    case Launch => LaunchConserves(s, x);
    case Activate =>
    case SetHealth(_, _) =>
    case _ => WorkerStepConserves(s, step, x);
  }

  lemma StopConserves(s: State, x: Job)
    requires Enabled(s, Stop) && Places(s, x) == s.accepted[x]
    ensures Places(Apply(s, Stop), x) == Apply(s, Stop).accepted[x]
  {
    assert Apply(s, Stop).queues[..|s.queues|] == s.queues;
  }

  lemma CompletionConserves(s: State, i: nat, failed: bool, x: Job)
    requires Enabled(s, Complete(i, failed)) && Places(s, x) == s.accepted[x]
    ensures Places(Apply(s, Complete(i, failed)), x) == Apply(s, Complete(i, failed)).accepted[x]
  {
    CompletionMovesJob(s.inFlight, i, x);
  }

  lemma LaunchConserves(s: State, x: Job)
    requires Enabled(s, Launch) && Places(s, x) == s.accepted[x]
    ensures Places(Apply(s, Launch), x) == Apply(s, Launch).accepted[x]
  {
    assert multiset(s.inFlight + [s.worker.job]) == multiset(s.inFlight) + multiset{s.worker.job};
  }

  /** Identifiers are fresh, so an accepted submission is known by its identifier. */
  ghost predicate FreshIDs(accepted: multiset<Job>, nextID: nat) {
    forall x :: x in accepted ==> x.id < nextID && accepted[x] == 1
  }

  /** What was dispatched is in flight or finished. */
  ghost predicate DispatchedOnce(dispatched: seq<Job>, inFlight: seq<Job>, finished: multiset<Job>) {
    forall x :: multiset(dispatched)[x] == multiset(inFlight)[x] + finished[x]
  }

  ghost predicate BookInv(s: State) {
    s.queues != [] && FreshIDs(s.accepted, s.nextID) && DispatchedOnce(s.dispatched, s.inFlight, s.finished)
  }

  lemma CompletionKeepsDispatched(dispatched: seq<Job>, inFlight: seq<Job>, finished: multiset<Job>, i: nat)
    requires DispatchedOnce(dispatched, inFlight, finished) && i < |inFlight|
    ensures DispatchedOnce(dispatched, inFlight[..i] + inFlight[i+1..], finished + multiset{inFlight[i]})
  {
    forall x ensures multiset(dispatched)[x] == multiset(inFlight[..i] + inFlight[i+1..])[x] + (finished + multiset{inFlight[i]})[x] {
      CompletionMovesJob(inFlight, i, x);
    }
  }

  lemma AcceptKeepsFresh(accepted: multiset<Job>, nextID: nat, task: Task)
    requires FreshIDs(accepted, nextID)
    ensures FreshIDs(accepted + multiset{Job(nextID, task)}, nextID + 1)
  {
  }

  lemma LaunchKeepsDispatched(dispatched: seq<Job>, inFlight: seq<Job>, finished: multiset<Job>, job: Job)
    requires DispatchedOnce(dispatched, inFlight, finished)
    ensures DispatchedOnce(dispatched + [job], inFlight + [job], finished)
  {
  }

  lemma StepKeepsBook(s: State, step: Step)
    requires Enabled(s, step) && BookInv(s)
    ensures BookInv(Apply(s, step))
  {
    if step.Accept? {
      AcceptKeepsFresh(s.accepted, s.nextID, step.task);
    } else if step.Complete? {
      CompletionKeepsDispatched(s.dispatched, s.inFlight, s.finished, step.i);
    } else if step.Launch? {
      LaunchKeepsDispatched(s.dispatched, s.inFlight, s.finished, s.worker.job);
    } else {
      OtherStepKeepsBook(s, step);
    }
  }

  lemma OtherStepKeepsBook(s: State, step: Step)
    requires Enabled(s, step) && !step.Accept? && !step.Complete? && !step.Launch? && s.queues != []
    ensures var s' := Apply(s, step);
            && s'.accepted == s.accepted && s'.nextID == s.nextID && s'.queues != []
            && s'.dispatched == s.dispatched && s'.inFlight == s.inFlight && s'.finished == s.finished
  {
  }

  lemma InitConserves(s: State, x: Job)
    requires Init(s)
    ensures BookInv(s) && Places(s, x) == s.accepted[x]
  {
    assert s.queues[..|s.queues|-1] == [];
    assert Waiting(s.queues, x) == WaitsIn(EMPTY_QUEUE, x);
  }

  lemma {:induction false} RunConserves(states: seq<State>, steps: seq<Step>, n: nat, x: Job)
    requires IsRun(states, steps) && n < |states|
    ensures BookInv(states[n]) && Places(states[n], x) == states[n].accepted[x]
  {
    if n > 0 {
      RunConserves(states, steps, n - 1, x);
      StepKeepsBook(states[n-1], steps[n-1]);
      StepConserves(states[n-1], steps[n-1], x);
    } else {
      InitConserves(states[0], x);
    }
  }

  /** Every accepted task is in exactly one place: waiting in a queue object or one of its timers, in
      the worker's hand, in flight, finished, or dropped with its quarantined node. Tasks of a
      replaced queue object count as waiting there. */
  lemma ExactlyOnePlace(states: seq<State>, steps: seq<Step>, n: nat, x: Job)
    requires IsRun(states, steps) && n < |states|
    ensures var s := states[n];
            Waiting(s.queues, x) + Holds(s.worker, x) + multiset(s.inFlight)[x] + s.finished[x] + s.dropped[x]
              == if x in s.accepted then 1 else 0
  {
    RunConserves(states, steps, n, x);
  }

  // ---------- Stop ----------

  lemma {:induction false} WaitingPrefix(queues: seq<QueueState>, n: nat, x: Job)
    requires n <= |queues|
    ensures Waiting(queues[..n], x) <= Waiting(queues, x)
  {
    if n < |queues| {
      WaitingPrefix(queues[..|queues|-1], n, x);
      assert queues[..|queues|-1][..n] == queues[..n];
    } else {
      assert queues[..n] == queues;
    }
  }

  /** The first n queue objects, once replaced, keep their tasks: only their own timers touch them. */
  lemma ReplacedQueuesKeepTasks(s: State, step: Step, n: nat, x: Job)
    requires Enabled(s, step) && n < |s.queues|
    ensures n < |Apply(s, step).queues|
    ensures Waiting(Apply(s, step).queues[..n], x) == Waiting(s.queues[..n], x)
  {
    var s' := Apply(s, step);
    if step.Fire? && step.q < n {
      WaitingUpdate(s.queues[..n], step.q, s'.queues[step.q], x);
      assert s'.queues[..n] == s.queues[..n][step.q := s'.queues[step.q]];
    } else {
      assert s'.queues[..n] == s.queues[..n];
    }
  }

  lemma StopKeepsTasks(s: State, x: Job)
    requires Enabled(s, Stop)
    ensures var s' := Apply(s, Stop);
            Frozen(s', |s.queues|, x, Waiting(s.queues, x))
  {
    assert Apply(s, Stop).queues[..|s.queues|] == s.queues;
  }

  /** The first n queue objects have been replaced and hold x that often. */
  ghost predicate Frozen(s: State, n: nat, x: Job, count: nat) {
    n < |s.queues| && Waiting(s.queues[..n], x) == count
  }

  lemma StepKeepsFrozen(s: State, step: Step, n: nat, x: Job, count: nat)
    requires Enabled(s, step) && Frozen(s, n, x, count)
    ensures Frozen(Apply(s, step), n, x, count)
  {
    ReplacedQueuesKeepTasks(s, step, n, x);
  }

  lemma RunKeepsFrozen(states: seq<State>, steps: seq<Step>, j: nat, n: nat, x: Job, count: nat)
    requires IsRun(states, steps) && j < |steps| && Frozen(states[j], n, x, count)
    ensures Frozen(states[j+1], n, x, count)
  {
    StepKeepsFrozen(states[j], steps[j], n, x, count);
  }

  lemma StopStarts(states: seq<State>, steps: seq<Step>, i: nat, x: Job)
    requires IsRun(states, steps) && i < |steps| && steps[i] == Stop
    ensures Frozen(states[i+1], |states[i].queues|, x, Waiting(states[i].queues, x))
  {
    StopKeepsTasks(states[i], x);
  }

  lemma {:induction false} StopFreezesQueues(states: seq<State>, steps: seq<Step>, i: nat, j: nat, x: Job)
    requires IsRun(states, steps) && i < j < |states| && steps[i] == Stop
    ensures Frozen(states[j], |states[i].queues|, x, Waiting(states[i].queues, x))
  {
    if j == i + 1 {
      StopStarts(states, steps, i, x);
    } else {
      StopFreezesQueues(states, steps, i, j - 1, x);
      RunKeepsFrozen(states, steps, j - 1, |states[i].queues|, x, Waiting(states[i].queues, x));
    }
  }

  /** No task that waits in a queue or a delay timer at a Stop is ever dispatched, before or after:
      it stays with the replaced queue object, where its timer pushes it. */
  lemma StoppedTasksAreNeverDispatched(states: seq<State>, steps: seq<Step>, i: nat, j: nat, x: Job)
    requires IsRun(states, steps) && i < j < |states| && steps[i] == Stop
    requires Waiting(states[i].queues, x) > 0
    ensures x !in states[j].dispatched && x !in states[j].inFlight && Holds(states[j].worker, x) == 0
  {
    StopFreezesQueues(states, steps, i, j, x);
    WaitingPrefix(states[j].queues, |states[i].queues|, x);
    ExactlyOnePlace(states, steps, j, x);
    RunConserves(states, steps, j, x);
    assert multiset(states[j].dispatched)[x] == 0;
  }

  // ---------- Counters ----------

  function InDomain(jobs: seq<Job>, domain: string): nat {
    if jobs == [] then 0
    else InDomain(jobs[..|jobs|-1], domain) + (if jobs[|jobs|-1].task.failureDomain == domain then 1 else 0)
  }

  lemma {:induction false} InDomainInTwo(a: seq<Job>, b: seq<Job>, domain: string)
    ensures InDomain(a + b, domain) == InDomain(a, domain) + InDomain(b, domain)
  {
    if b == [] {
      assert a + b == a;
    } else {
      assert (a + b)[..|a + b|-1] == a + b[..|b|-1];
      InDomainInTwo(a, b[..|b|-1], domain);
    }
  }

  lemma InDomainRemove(jobs: seq<Job>, i: nat, domain: string)
    requires i < |jobs|
    ensures InDomain(jobs, domain) == InDomain(jobs[..i] + jobs[i+1..], domain) + (if jobs[i].task.failureDomain == domain then 1 else 0)
  {
    assert jobs == jobs[..i] + ([jobs[i]] + jobs[i+1..]);
    InDomainInTwo(jobs[..i], [jobs[i]] + jobs[i+1..], domain);
    InDomainInTwo([jobs[i]], jobs[i+1..], domain);
    InDomainInTwo(jobs[..i], jobs[i+1..], domain);
    assert [jobs[i]][..0] == [];
  }

  /** The worker has passed the domain check for this domain and not launched yet. */
  predicate Cleared(w: Worker, domain: string) {
    (w.Admitted? || w.Limited? || w.Counted?) && w.job.task.failureDomain == domain
  }

  ghost predicate DomainCount(domainTasks: map<string, int>, inFlight: seq<Job>, domain: string) {
    CountOf(domainTasks, domain) == InDomain(inFlight, domain)
  }

  ghost predicate DomainInv(s: State, domain: string) {
    && DomainCount(s.domainTasks, s.inFlight, domain)
    && CountOf(s.domainTasks, domain) <= DOMAIN_LIMIT
    && (Cleared(s.worker, domain) ==> CountOf(s.domainTasks, domain) < DOMAIN_LIMIT)
  }

  ghost predicate ActiveInv(s: State) {
    s.activeTasks == |s.inFlight| + (if s.worker.Counted? then 1 else 0) <= MAX_ACTIVE
  }

  lemma LaunchCounts(domainTasks: map<string, int>, inFlight: seq<Job>, job: Job, domain: string)
    requires domain != "" && DomainCount(domainTasks, inFlight, domain)
    ensures DomainCount(Bumped(domainTasks, job.task.failureDomain, 1), inFlight + [job], domain)
  {
    assert (inFlight + [job])[..|inFlight|] == inFlight;
  }

  lemma CompletionCounts(domainTasks: map<string, int>, inFlight: seq<Job>, i: nat, domain: string)
    requires domain != "" && i < |inFlight| && DomainCount(domainTasks, inFlight, domain)
    ensures DomainCount(Bumped(domainTasks, inFlight[i].task.failureDomain, -1), inFlight[..i] + inFlight[i+1..], domain)
  {
    InDomainRemove(inFlight, i, domain);
  }

  lemma LaunchKeepsCounters(s: State, domain: string)
    requires Enabled(s, Launch) && domain != "" && DomainInv(s, domain) && ActiveInv(s)
    ensures DomainInv(Apply(s, Launch), domain) && ActiveInv(Apply(s, Launch))
  {
    LaunchCounts(s.domainTasks, s.inFlight, s.worker.job, domain);
  }

  lemma CompleteKeepsCounters(s: State, i: nat, failed: bool, domain: string)
    requires Enabled(s, Complete(i, failed)) && domain != "" && DomainInv(s, domain) && ActiveInv(s)
    ensures DomainInv(Apply(s, Complete(i, failed)), domain) && ActiveInv(Apply(s, Complete(i, failed)))
  {
    CompletionCounts(s.domainTasks, s.inFlight, i, domain);
  }

  lemma StepKeepsCounters(s: State, step: Step, domain: string)
    requires Enabled(s, step) && domain != "" && DomainInv(s, domain) && ActiveInv(s)
    ensures DomainInv(Apply(s, step), domain) && ActiveInv(Apply(s, step))
  {
    if step.Launch? {
      LaunchKeepsCounters(s, domain);
    } else if step.Complete? {
      CompleteKeepsCounters(s, step.i, step.failed, domain);
    }
  }

  /** With one worker and any completions in between, activeTasks is the number of tasks in flight
      (plus the one being launched) and never above 100, and each named domain's counter is its
      number of tasks in flight and never above 10. */
  lemma {:induction false} CountersMatch(states: seq<State>, steps: seq<Step>, n: nat, domain: string)
    requires IsRun(states, steps) && n < |states| && domain != ""
    ensures DomainInv(states[n], domain) && ActiveInv(states[n])
  {
    if n > 0 {
      CountersMatch(states, steps, n - 1, domain);
      StepKeepsCounters(states[n-1], steps[n-1], domain);
    }
  }

  ghost predicate ThrottleInv(s: State, domain: string) {
    FailuresOf(s, domain) > FAILURE_THRESHOLD && (Cleared(s.worker, domain) ==> CountOf(s.domainTasks, domain) == 0)
  }

  lemma FailuresOnlyGrow(s: State, step: Step, domain: string)
    requires Enabled(s, step)
    ensures FailuresOf(s, domain) <= FailuresOf(Apply(s, step), domain)
  {
  }

  /** A failing domain is cleared only while it has nothing in flight, and a cleared task launches first. */
  lemma ThrottledClearing(s: State, step: Step, domain: string)
    requires Enabled(s, step) && domain != "" && ThrottleInv(s, domain) && DomainInv(Apply(s, step), domain)
    requires Cleared(Apply(s, step).worker, domain)
    ensures CountOf(Apply(s, step).domainTasks, domain) <= 0
  {
  }

  lemma RunKeepsThrottle(states: seq<State>, steps: seq<Step>, n: nat, domain: string)
    requires IsRun(states, steps) && n < |steps| && domain != "" && ThrottleInv(states[n], domain)
    ensures ThrottleInv(states[n+1], domain)
  {
    CountersMatch(states, steps, n, domain);
    CountersMatch(states, steps, n + 1, domain);
    FailuresOnlyGrow(states[n], steps[n], domain);
    if Cleared(states[n+1].worker, domain) {
      ThrottledClearing(states[n], steps[n], domain);
    }
  }

  lemma {:induction false} ThrottleHolds(states: seq<State>, steps: seq<Step>, i: nat, j: nat, domain: string)
    requires IsRun(states, steps) && i <= j < |states| && domain != ""
    requires states[i].worker.Resting? && FailuresOf(states[i], domain) > FAILURE_THRESHOLD
    ensures ThrottleInv(states[j], domain)
  {
    if i < j {
      ThrottleHolds(states, steps, i, j - 1, domain);
      RunKeepsThrottle(states, steps, j - 1, domain);
    }
  }

  lemma StepRaisesFromZero(s: State, step: Step, domain: string)
    requires Enabled(s, step) && domain != "" && ThrottleInv(s, domain)
    ensures CountOf(Apply(s, step).domainTasks, domain) > CountOf(s.domainTasks, domain) ==>
              CountOf(s.domainTasks, domain) == 0 && CountOf(Apply(s, step).domainTasks, domain) == 1
  {
  }

  /** Once a domain has more than five failures, at a moment between two iterations, its number of
      tasks in flight only ever rises from zero to one: above one it can only drain. */
  lemma FailingDomainRunsOneAtATime(states: seq<State>, steps: seq<Step>, i: nat, j: nat, domain: string)
    requires IsRun(states, steps) && i <= j < |steps| && domain != ""
    requires states[i].worker.Resting? && FailuresOf(states[i], domain) > FAILURE_THRESHOLD
    ensures InDomain(states[j+1].inFlight, domain) > InDomain(states[j].inFlight, domain) ==>
              InDomain(states[j].inFlight, domain) == 0 && InDomain(states[j+1].inFlight, domain) == 1
  {
    ThrottleHolds(states, steps, i, j, domain);
    CountersMatch(states, steps, j, domain);
    CountersMatch(states, steps, j + 1, domain);
    StepRaisesFromZero(states[j], steps[j], domain);
  }

  // ---------- Node health ----------

  /** Step m checks the health of the worker's task and finds its node fit. */
  ghost predicate FoundFit(states: seq<State>, steps: seq<Step>, m: nat, job: Job)
    requires m < |steps| < |states|
  {
    steps[m] == CheckDomain && states[m].worker == Popped(job) && job.task.nodeID !in states[m].quarantined
  }

  predicate HasPassed(w: Worker) {
    w.Admitted? || w.Limited? || w.Counted?
  }

  /** The task in the worker's hand was found fit at a step since which the worker has held it. */
  ghost predicate FitSince(states: seq<State>, steps: seq<Step>, m: nat, n: nat)
    requires m < n < |states| && n <= |steps| < |states| && HasPassed(states[n].worker)
  {
    FoundFit(states, steps, m, states[n].worker.job)
    && forall k :: m < k <= n ==> HasPassed(states[k].worker) && states[k].worker.job == states[n].worker.job
  }

  lemma StepPassesOnce(s: State, step: Step)
    requires Enabled(s, step) && HasPassed(Apply(s, step).worker)
    ensures if HasPassed(s.worker) then s.worker.job == Apply(s, step).worker.job
            else step == CheckDomain && s.worker == Popped(Apply(s, step).worker.job)
                 && s.worker.job.task.nodeID !in s.quarantined
  {
  }

  lemma {:induction false} PassedWasFit(states: seq<State>, steps: seq<Step>, n: nat) returns (m: nat)
    requires IsRun(states, steps) && n < |states| && HasPassed(states[n].worker)
    ensures m < n && FitSince(states, steps, m, n)
  {
    if n == 0 {
      assert false;
    } else {
      StepPassesOnce(states[n-1], steps[n-1]);
      if HasPassed(states[n-1].worker) {
        m := PassedWasFit(states, steps, n - 1);
      } else {
        m := n - 1;
      }
    }
  }

  /** Whatever is dispatched was found on a node fit at the health check of that very iteration. */
  lemma DispatchedWasFit(states: seq<State>, steps: seq<Step>, n: nat) returns (m: nat)
    requires IsRun(states, steps) && n < |steps| && steps[n] == Launch
    ensures states[n+1].dispatched == states[n].dispatched + [states[n].worker.job]
    ensures m < n && FitSince(states, steps, m, n)
  {
    assert states[n+1] == Apply(states[n], steps[n]);
    m := PassedWasFit(states, steps, n);
  }

  /** Step m checks the health of task x and finds its node quarantined. */
  ghost predicate FoundUnfit(states: seq<State>, steps: seq<Step>, m: nat, x: Job)
    requires m < |steps| < |states|
  {
    steps[m] == DropQuarantined && states[m].worker == Popped(x) && x.task.nodeID in states[m].quarantined
  }

  lemma StepDropsOnlyUnfit(s: State, step: Step, x: Job)
    requires Enabled(s, step) && x in Apply(s, step).dropped && x !in s.dropped
    ensures step == DropQuarantined && s.worker == Popped(x) && x.task.nodeID in s.quarantined
  {
  }

  /** A task is dropped only by a health check that found its node quarantined. */
  lemma {:induction false} DroppedWasUnfit(states: seq<State>, steps: seq<Step>, n: nat, x: Job) returns (m: nat)
    requires IsRun(states, steps) && n < |states| && x in states[n].dropped
    ensures m < n && FoundUnfit(states, steps, m, x)
  {
    if n == 0 {
      assert false;
    } else if x in states[n-1].dropped {
      m := DroppedWasUnfit(states, steps, n - 1, x);
    } else {
      StepDropsOnlyUnfit(states[n-1], steps[n-1], x);
      m := n - 1;
    }
  }

  /** The step neither deals with the worker's popped task nor changes the health of its node. */
  predicate LeavesPopped(step: Step, node: NodeID) {
    step != DropQuarantined && step != CheckDomain && !(step.SetHealth? && step.node == node)
  }

  lemma StepLeavesPopped(s: State, step: Step, x: Job)
    requires Enabled(s, step) && s.worker == Popped(x) && LeavesPopped(step, x.task.nodeID)
    ensures Apply(s, step).worker == Popped(x)
    ensures x.task.nodeID in Apply(s, step).quarantined <==> x.task.nodeID in s.quarantined
  {
  }

  lemma {:induction false} PoppedWaits(states: seq<State>, steps: seq<Step>, p: nat, q: nat, x: Job)
    requires IsRun(states, steps) && p < q < |states| && steps[p] == Pop(x)
    requires forall k :: p < k < q ==> LeavesPopped(steps[k], x.task.nodeID)
    ensures states[q].worker == Popped(x)
    ensures x.task.nodeID in states[q].quarantined <==> x.task.nodeID in states[p].quarantined
  {
    if q == p + 1 {
      assert states[q] == Apply(states[p], steps[p]);
    } else {
      PoppedWaits(states, steps, p, q - 1, x);
      StepLeavesPopped(states[q-1], steps[q-1], x);
    }
  }

  /** A popped task whose node's record does not change until its health check is dropped by that check if
      and only if the node was quarantined when it was popped. */
  lemma QuarantinedIsDroppedExactly(states: seq<State>, steps: seq<Step>, p: nat, q: nat, x: Job)
    requires IsRun(states, steps) && p < q < |steps| && steps[p] == Pop(x) && !LeavesPopped(steps[q], x.task.nodeID) && !steps[q].SetHealth?
    requires forall k :: p < k < q ==> LeavesPopped(steps[k], x.task.nodeID)
    ensures states[q+1].dropped == (if x.task.nodeID in states[p].quarantined then states[q].dropped + multiset{x} else states[q].dropped)
    ensures x.task.nodeID in states[p].quarantined <==> steps[q] == DropQuarantined
  {
    PoppedWaits(states, steps, p, q, x);
    assert states[q+1] == Apply(states[q], steps[q]);
  }

  // ---------- Failures ----------

  /** How many of the first n steps complete a task of the domain with an error. */
  function FailedCompletions(states: seq<State>, steps: seq<Step>, n: nat, domain: string): nat
    requires n <= |steps| <= |states|
  {
    if n == 0 then 0
    else FailedCompletions(states, steps, n - 1, domain) + if FailsIn(states[n-1], steps[n-1], domain) then 1 else 0
  }

  predicate FailsIn(s: State, step: Step, domain: string) {
    step.Complete? && step.failed && step.i < |s.inFlight| && s.inFlight[step.i].task.failureDomain == domain
  }

  lemma StepCountsFailures(s: State, step: Step, domain: string)
    requires Enabled(s, step) && domain != ""
    ensures FailuresOf(Apply(s, step), domain) == FailuresOf(s, domain) + if FailsIn(s, step, domain) then 1 else 0
  {
  }

  /** The failure count of a named domain is the number of its tasks that completed with an error. */
  lemma {:induction false} FailuresAreCounted(states: seq<State>, steps: seq<Step>, n: nat, domain: string)
    requires IsRun(states, steps) && n < |states| && domain != ""
    ensures FailuresOf(states[n], domain) == FailedCompletions(states, steps, n, domain)
  {
    if n > 0 {
      FailuresAreCounted(states, steps, n - 1, domain);
      StepCountsFailures(states[n-1], steps[n-1], domain);
    }
  }
}
