/**
 The two-phase idempotency protocol of control_plane/store/redis_idempotency.go for one key: any
 number of clients running LOCK, EXECUTE, RESULT, with the two-key read as two separate steps.
 */
module Idempotency {
  import opened Wrappers
  import opened LockStore

  type Response = string

  /** What one two-key read finds when it does not fail. */
  datatype Record = Absent | Locked | Result(r: Response)

  /** The next remote command, or local event, of a client. */
  datatype Phase =
    | ReadResult                     // step 1: GET result
    | ReadLock                       // step 1: GET lock
    | WaitResult                     // poll: GET result
    | WaitLock                       // poll: GET lock
    | Acquiring                      // step 2: SET NX lock
    | CheckResult                    // step 3, lock acquired: GET result
    | CheckLock                      // step 3: GET lock
    | Executing                      // step 4
    | Executed(r: Response)          // step 5: SET result
    | ReleaseStored(r: Response)     // step 5: release
    | ReleaseFound(r: Response)      // step 3 found a result: release
    | ReleaseFailed                  // step 3 or 4 failed: release
    | Returned(r: Response)
    | Failed
    | Crashed

  /** deadline: when the lock this client acquired expires. */
  datatype Client = Client(phase: Phase, deadline: int)

  const LOCK_TTL: Ttl := 600_000

  /** Every client locks with the idempotency key itself as the owner. */
  const OWNER := "key"

  /** A command whose caller gave up, which may be executed at any later time, or never. */
  datatype Late = LateLock(c: nat) | LateUnlock | LateStore(r: Response)

  /**
   decodes: whether a stored lock reads back as a LOCKED record, as the protocol intends.
   owner: the client whose command created the stored lock. succeeded: every successful execution.
   */
  datatype State = State(
    decodes: bool,
    now: int,
    lock: Slot<string>,
    owner: nat,
    result: Option<Response>,
    clients: map<nat, Client>,
    succeeded: seq<(nat, Response)>,
    late: set<Late>)

  datatype Step =
    | GetResult(c: nat)
    | GetLock(c: nat)
    | GetError(c: nat)
    | Acquire(c: nat)
    | AcquireError(c: nat, executed: bool)
    | ExecuteOk(c: nat, r: Response)
    | ExecuteError(c: nat)
    | StoreResult(c: nat, replyLost: bool)
    | StoreFails(c: nat)
    | Release(c: nat, executed: bool)
    | Timeout(c: nat)
    | Crash(c: nat)
    | CrashUnstored(c: nat)
    | Tick(d: nat)
    | LateCommand(l: Late)

  ghost predicate Init(s: State) {
    && s.lock == None && s.result == None && s.succeeded == [] && s.late == {}
    && forall c :: c in s.clients ==> s.clients[c].phase == ReadResult
  }

  predicate Enabled(s: State, step: Step) {
    if step.Tick? then true else if step.LateCommand? then step.l in s.late else
    step.c in s.clients &&
    var phase := s.clients[step.c].phase;
    match step
    case GetResult(_) => phase.ReadResult? || phase.WaitResult? || phase.CheckResult?
    case GetLock(_) => phase.ReadLock? || phase.WaitLock? || phase.CheckLock?
    case GetError(_) =>
      phase.ReadResult? || phase.WaitResult? || phase.CheckResult? || phase.ReadLock? || phase.WaitLock? || phase.CheckLock?
    case Acquire(_) => phase.Acquiring?
    case AcquireError(_, _) => phase.Acquiring?
    case ExecuteOk(_, _) => phase.Executing?
    case ExecuteError(_) => phase.Executing?
    case StoreResult(_, _) => phase.Executed?
    case StoreFails(_) => phase.Executed?
    case Release(_, _) => phase.ReleaseStored? || phase.ReleaseFound? || phase.ReleaseFailed?
    case Timeout(_) => phase.WaitResult?
    case Crash(_) => !phase.Executed?
    case CrashUnstored(_) => phase.Executed?
    case _ => true
  }

  function Goes(s: State, c: nat, phase: Phase): State
    requires c in s.clients
  {
    s.(clients := s.clients[c := s.clients[c].(phase := phase)])
  }

  function AfterGetLock(s: State, phase: Phase): Phase
    requires phase.ReadLock? || phase.WaitLock? || phase.CheckLock?
  {
    var locked := Live(s.lock, s.now).Some?;
    if phase.CheckLock? then (if locked && !s.decodes then ReleaseFailed else Executing)
    else if locked then (if s.decodes then WaitResult else Failed)
    else if phase.ReadLock? then Acquiring
    else Failed                                          // lock expired without result
  }

  function AfterRelease(phase: Phase): Phase
    requires phase.ReleaseStored? || phase.ReleaseFound? || phase.ReleaseFailed?
  {
    if phase.ReleaseFailed? then Failed else Returned(phase.r)
  }

  function Apply(s: State, step: Step): State
    requires Enabled(s, step)
  {
    match step
    case GetResult(c) =>
      var phase := s.clients[c].phase;
      Goes(s, c, if s.result.Some? then (if phase.CheckResult? then ReleaseFound(s.result.value) else Returned(s.result.value))
                 else if phase.ReadResult? then ReadLock
                 else if phase.WaitResult? then WaitLock
                 else CheckLock)
    case GetLock(c) => Goes(s, c, AfterGetLock(s, s.clients[c].phase))
    case GetError(c) =>
      var phase := s.clients[c].phase;
      Goes(s, c, if phase.CheckResult? || phase.CheckLock? then ReleaseFailed else Failed)
    case Acquire(c) =>
      var (lock, acquired) := SetNx(s.lock, OWNER, LOCK_TTL, s.now);
      if acquired
      then s.(lock := lock, owner := c, clients := s.clients[c := Client(CheckResult, s.now + LOCK_TTL)])
      else Goes(s, c, WaitResult)
    case AcquireError(c, executed) =>
      var (lock, acquired) := SetNx(s.lock, OWNER, LOCK_TTL, s.now);
      var failed := Goes(s, c, Failed);
      if !executed then failed.(late := s.late + {LateLock(c)})
      else if acquired then failed.(lock := lock, owner := c) else failed
    case ExecuteOk(c, r) => Goes(s, c, Executed(r)).(succeeded := s.succeeded + [(c, r)])
    case ExecuteError(c) => Goes(s, c, ReleaseFailed)
    case StoreResult(c, replyLost) =>
      var r := s.clients[c].phase.r;
      Goes(s, c, if replyLost then Returned(r) else ReleaseStored(r)).(result := Some(r))
    case StoreFails(c) =>
      var r := s.clients[c].phase.r;
      Goes(s, c, Returned(r)).(late := s.late + {LateStore(r)})
    case Release(c, executed) =>
      var released := Goes(s, c, AfterRelease(s.clients[c].phase));
      if executed then released.(lock := CompareAndDelete(s.lock, OWNER, s.now)) else released.(late := s.late + {LateUnlock})
    case Timeout(c) => Goes(s, c, Failed)
    case Crash(c) => Goes(s, c, Crashed)
    case CrashUnstored(c) => Goes(s, c, Crashed)
    case Tick(d) => s.(now := s.now + d)
    case LateCommand(l) => ExecLate(s, l)
  }

  function ExecLate(s: State, l: Late): State {
    match l
    case LateLock(c) =>
      var (lock, acquired) := SetNx(s.lock, OWNER, LOCK_TTL, s.now);
      if acquired then s.(lock := lock, owner := c) else s
    case LateUnlock => s.(lock := CompareAndDelete(s.lock, OWNER, s.now))
    case LateStore(r) => s.(result := Some(r))
  }

  ghost predicate IsPath(states: seq<State>, steps: seq<Step>) {
    && |states| == |steps| + 1
    && forall i {:trigger steps[i]} :: 0 <= i < |steps| ==> Enabled(states[i], steps[i]) && states[i+1] == Apply(states[i], steps[i])
  }

  ghost predicate IsRun(states: seq<State>, steps: seq<Step>) {
    IsPath(states, steps) && Init(states[0])
  }

  /** From acquiring the lock until the result is stored or the lock is given back after a failure. */
  predicate Critical(phase: Phase) {
    phase.CheckResult? || phase.CheckLock? || phase.Executing? || phase.Executed? || phase.ReleaseFailed?
  }

  /** Critical sections end before the lock they hold expires. */
  ghost predicate Timely(s: State) {
    forall c :: c in s.clients && Critical(s.clients[c].phase) ==> s.now < s.clients[c].deadline
  }

  ghost predicate AllTimely(states: seq<State>) {
    forall s :: s in states ==> Timely(s)
  }

  /** A successful execution whose result write fails, or whose client crashes before it. */
  predicate LosesResult(step: Step) {
    step.StoreFails? || step.CrashUnstored?
  }

  ghost predicate StoresReach(steps: seq<Step>) {
    forall i :: 0 <= i < |steps| ==> !LosesResult(steps[i])
  }

  /** A release that arrives late and takes a live lock while no result is stored. */
  predicate TakesForeignLock(s: State, step: Step) {
    step == LateCommand(LateUnlock) && s.result.None? && Live(s.lock, s.now).Some?
  }

  ghost predicate ReleasesHit(states: seq<State>, steps: seq<Step>) {
    |steps| <= |states| && forall i :: 0 <= i < |steps| ==> !TakesForeignLock(states[i], steps[i])
  }

  /** What the protocol needs of its environment: timely critical sections, result writes that reach the
      store, and no late release that takes another client's lock. */
  ghost predicate Reliable(states: seq<State>, steps: seq<Step>) {
    AllTimely(states) && StoresReach(steps) && ReleasesHit(states, steps)
  }

  // ---------- The inductive invariant ----------

  predicate PastCheck(phase: Phase) {
    phase.CheckLock? || phase.Executing? || phase.Executed?
  }

  /** The result a client is about to return, or has returned. */
  function Answer(phase: Phase): Option<Response> {
    match phase
    case ReleaseStored(r) => Some(r)
    case ReleaseFound(r) => Some(r)
    case Returned(r) => Some(r)
    case _ => None
  }

  ghost predicate ClientInv(lock: Slot<string>, owner: nat, result: Option<Response>, succeeded: seq<(nat, Response)>,
                            c: nat, client: Client)
  {
    var phase := client.phase;
    && (result.None? && Critical(phase) ==> owner == c && lock == Some(Entry(OWNER, client.deadline)))
    && (PastCheck(phase) ==> result.None?)
    && (phase.Executed? ==> succeeded == [(c, phase.r)])
    && (Answer(phase).Some? ==> result == Answer(phase))
  }

  ghost predicate ExecutionInv(result: Option<Response>, clients: map<nat, Client>, succeeded: seq<(nat, Response)>) {
    && |succeeded| <= 1
    && (result.Some? ==> |succeeded| == 1 && succeeded[0].1 == result.value)
    && (result.None? && |succeeded| == 1 ==> succeeded[0].0 in clients && clients[succeeded[0].0].phase.Executed?)
  }

  ghost predicate LockInv(lock: Slot<string>) {
    lock.Some? ==> lock.value.value == OWNER
  }

  ghost predicate LateInv(late: set<Late>) {
    forall l :: l in late ==> !l.LateStore?
  }

  ghost predicate Inv(s: State) {
    && LockInv(s.lock) && LateInv(s.late)
    && ExecutionInv(s.result, s.clients, s.succeeded)
    && forall c :: c in s.clients ==> ClientInv(s.lock, s.owner, s.result, s.succeeded, c, s.clients[c])
  }

  /** A step that only moves one client. */
  lemma ClientMoves(s: State, c: nat, client: Client)
    requires Inv(s) && c in s.clients && !s.clients[c].phase.Executed?
    requires ClientInv(s.lock, s.owner, s.result, s.succeeded, c, client)
    ensures Inv(s.(clients := s.clients[c := client]))
  {
    var clients := s.clients[c := client];
    forall d | d in clients ensures ClientInv(s.lock, s.owner, s.result, s.succeeded, d, clients[d]) {
      assert d != c ==> ClientInv(s.lock, s.owner, s.result, s.succeeded, d, s.clients[d]);
    }
  }

  /** While no result is stored, a free lock means that nobody is in a critical section. */
  lemma FreeLockMeansNobody(s: State, c: nat)
    requires Inv(s) && Timely(s) && s.result.None? && Live(s.lock, s.now).None?
    requires c in s.clients
    ensures !Critical(s.clients[c].phase)
  {
    assert ClientInv(s.lock, s.owner, s.result, s.succeeded, c, s.clients[c]);
  }

  lemma LockTakenKeepsInv(s: State, c: nat, client: Client)
    requires Inv(s) && Timely(s) && Live(s.lock, s.now).None? && c in s.clients && s.clients[c].phase.Acquiring?
    requires client == Client(CheckResult, s.now + LOCK_TTL) || client.phase.Failed?
    ensures Inv(s.(lock := Some(Entry(OWNER, s.now + LOCK_TTL)), owner := c, clients := s.clients[c := client]))
  {
    var lock := Some(Entry(OWNER, s.now + LOCK_TTL));
    var clients := s.clients[c := client];
    forall d | d in clients ensures ClientInv(lock, c, s.result, s.succeeded, d, clients[d]) {
      if d != c {
        assert ClientInv(s.lock, s.owner, s.result, s.succeeded, d, s.clients[d]);
        if s.result.None? { FreeLockMeansNobody(s, d); }
      }
    }
  }

  lemma LateLockKeepsInv(s: State, c: nat)
    requires Inv(s) && Timely(s) && Live(s.lock, s.now).None?
    ensures Inv(s.(lock := Some(Entry(OWNER, s.now + LOCK_TTL)), owner := c))
  {
    var lock := Some(Entry(OWNER, s.now + LOCK_TTL));
    forall d | d in s.clients ensures ClientInv(lock, c, s.result, s.succeeded, d, s.clients[d]) {
      assert ClientInv(s.lock, s.owner, s.result, s.succeeded, d, s.clients[d]);
      if s.result.None? { FreeLockMeansNobody(s, d); }
    }
  }

  lemma LateUnlockKeepsInv(s: State)
    requires Inv(s) && !TakesForeignLock(s, LateCommand(LateUnlock))
    ensures Inv(ExecLate(s, LateUnlock))
  {
    var s' := ExecLate(s, LateUnlock);
    forall d | d in s.clients ensures ClientInv(s'.lock, s.owner, s.result, s.succeeded, d, s.clients[d]) {
      assert ClientInv(s.lock, s.owner, s.result, s.succeeded, d, s.clients[d]);
    }
  }

  lemma LateKeepsInv(s: State, l: Late)
    requires Inv(s) && Timely(s) && l in s.late && !TakesForeignLock(s, LateCommand(l))
    ensures Inv(ExecLate(s, l))
  {
    match l
    case LateLock(c) => if Live(s.lock, s.now).None? { LateLockKeepsInv(s, c); }
    case LateUnlock => LateUnlockKeepsInv(s);
    case LateStore(_) => assert false;
  }

  lemma ReleaseKeepsInv(s: State, c: nat, executed: bool)
    requires Inv(s) && Enabled(s, Release(c, executed))
    ensures Inv(Apply(s, Release(c, executed)))
  {
    var s' := Apply(s, Release(c, executed));
    assert ClientInv(s.lock, s.owner, s.result, s.succeeded, c, s.clients[c]);
    forall d | d in s'.clients ensures ClientInv(s'.lock, s.owner, s.result, s.succeeded, d, s'.clients[d]) {
      assert d != c ==> ClientInv(s.lock, s.owner, s.result, s.succeeded, d, s.clients[d]);
    }
  }

  lemma ExecuteKeepsInv(s: State, c: nat, r: Response)
    requires Inv(s) && Enabled(s, ExecuteOk(c, r))
    ensures Inv(Apply(s, ExecuteOk(c, r)))
  {
    var s' := Apply(s, ExecuteOk(c, r));
    assert ClientInv(s.lock, s.owner, s.result, s.succeeded, c, s.clients[c]);
    assert s.succeeded == [];           // an earlier one would hold the same lock
    forall d | d in s'.clients ensures ClientInv(s.lock, s.owner, s.result, s'.succeeded, d, s'.clients[d]) {
      assert d != c ==> ClientInv(s.lock, s.owner, s.result, s.succeeded, d, s.clients[d]);
    }
  }

  lemma StoreKeepsInv(s: State, c: nat, replyLost: bool)
    requires Inv(s) && Enabled(s, StoreResult(c, replyLost))
    ensures Inv(Apply(s, StoreResult(c, replyLost)))
  {
    var s' := Apply(s, StoreResult(c, replyLost));
    assert ClientInv(s.lock, s.owner, s.result, s.succeeded, c, s.clients[c]);
    forall d | d in s'.clients ensures ClientInv(s.lock, s.owner, s'.result, s.succeeded, d, s'.clients[d]) {
      assert d != c ==> ClientInv(s.lock, s.owner, s.result, s.succeeded, d, s.clients[d]);
    }
  }

  lemma ReadKeepsInv(s: State, step: Step)
    requires Inv(s) && Timely(s) && Enabled(s, step) && (step.GetResult? || step.GetLock? || step.GetError?)
    ensures Inv(Apply(s, step))
  {
    assert ClientInv(s.lock, s.owner, s.result, s.succeeded, step.c, s.clients[step.c]);
    ClientMoves(s, step.c, Apply(s, step).clients[step.c]);
  }

  lemma AcquireKeepsInv(s: State, step: Step)
    requires Inv(s) && Timely(s) && Enabled(s, step) && (step.Acquire? || step.AcquireError?)
    ensures Inv(Apply(s, step))
  {
    var s' := Apply(s, step);
    var client := s'.clients[step.c];
    if Live(s.lock, s.now).None? && (step.Acquire? || step.executed) {
      LockTakenKeepsInv(s, step.c, client);
    } else {
      ClientMoves(s, step.c, client);
      assert s' == s.(clients := s.clients[step.c := client], late := s'.late);
    }
  }

  /** Steps by which a client gives up. */
  lemma StopKeepsInv(s: State, step: Step)
    requires Inv(s) && Timely(s) && Enabled(s, step) && (step.ExecuteError? || step.Timeout? || step.Crash?)
    ensures Inv(Apply(s, step))
  {
    assert ClientInv(s.lock, s.owner, s.result, s.succeeded, step.c, s.clients[step.c]);
    ClientMoves(s, step.c, Apply(s, step).clients[step.c]);
  }

  lemma StepKeepsInv(s: State, step: Step)
    requires Inv(s) && Timely(s) && Enabled(s, step) && !LosesResult(step) && !TakesForeignLock(s, step)
    ensures Inv(Apply(s, step))
  {
    match step
    case Tick(_) =>
    case LateCommand(l) => LateKeepsInv(s, l);
    case ExecuteOk(c, r) => ExecuteKeepsInv(s, c, r);
    case StoreResult(c, replyLost) => StoreKeepsInv(s, c, replyLost);
    case Release(c, executed) => ReleaseKeepsInv(s, c, executed);
    case Acquire(_) => AcquireKeepsInv(s, step);
    case AcquireError(_, _) => AcquireKeepsInv(s, step);
    case ExecuteError(_) => StopKeepsInv(s, step);
    case Timeout(_) => StopKeepsInv(s, step);
    case Crash(_) => StopKeepsInv(s, step);
    case _ => ReadKeepsInv(s, step);
  }

  lemma {:induction false} RunKeepsInv(states: seq<State>, steps: seq<Step>, n: nat)
    requires IsRun(states, steps) && Reliable(states, steps) && n < |states|
    ensures Inv(states[n])
  {
    if n > 0 {
      RunKeepsInv(states, steps, n - 1);
      assert Timely(states[n-1]);
      StepKeepsInv(states[n-1], steps[n-1]);
    }
  }

  // ---------- What every reliable run guarantees ----------

  /** At most one execution ever succeeds, and every client that returns without error returns that
      execution's response. */
  lemma AtMostOneExecution(states: seq<State>, steps: seq<Step>, n: nat)
    requires IsRun(states, steps) && Reliable(states, steps) && n < |states|
    ensures var s := states[n];
            && |s.succeeded| <= 1
            && forall c :: c in s.clients && s.clients[c].phase.Returned? ==>
                 |s.succeeded| == 1 && s.clients[c].phase.r == s.succeeded[0].1
  {
    RunKeepsInv(states, steps, n);
    var s := states[n];
    forall c | c in s.clients && s.clients[c].phase.Returned?
      ensures |s.succeeded| == 1 && s.clients[c].phase.r == s.succeeded[0].1
    {
      assert ClientInv(s.lock, s.owner, s.result, s.succeeded, c, s.clients[c]);
    }
  }

  /** At most one client at a time is past the double check and not yet done. */
  lemma AtMostOneExecutor(states: seq<State>, steps: seq<Step>, n: nat)
    requires IsRun(states, steps) && Reliable(states, steps) && n < |states|
    ensures var clients := states[n].clients;
            forall c, d :: c in clients && d in clients && PastCheck(clients[c].phase) && PastCheck(clients[d].phase) ==> c == d
  {
    RunKeepsInv(states, steps, n);
    var s := states[n];
    forall c, d | c in s.clients && d in s.clients && PastCheck(s.clients[c].phase) && PastCheck(s.clients[d].phase) ensures c == d {
      assert ClientInv(s.lock, s.owner, s.result, s.succeeded, c, s.clients[c]);
      assert ClientInv(s.lock, s.owner, s.result, s.succeeded, d, s.clients[d]);
    }
  }

  ghost predicate NobodyExecutes(clients: map<nat, Client>) {
    forall c :: c in clients ==> !clients[c].phase.Executing? && !clients[c].phase.Executed? && !clients[c].phase.Returned?
  }

  lemma UndecodableStep(s: State, step: Step)
    requires Inv(s) && Timely(s) && Enabled(s, step) && !s.decodes && s.succeeded == [] && NobodyExecutes(s.clients)
    ensures var s' := Apply(s, step); !s'.decodes && s'.succeeded == [] && NobodyExecutes(s'.clients)
  {
    if !step.Tick? && !step.LateCommand? {
      assert ClientInv(s.lock, s.owner, s.result, s.succeeded, step.c, s.clients[step.c]);
      var client := Apply(s, step).clients[step.c];
      assert !client.phase.Executing? && !client.phase.Executed? && !client.phase.Returned?;
      assert Apply(s, step).clients == s.clients[step.c := client];
    }
  }

  /** Where the stored lock does not decode, as happens with the bare key that is written today, the
      holder's own double check fails: nothing is ever executed and nobody returns a response. */
  lemma {:induction false} UndecodableLockExecutesNothing(states: seq<State>, steps: seq<Step>, n: nat)
    requires IsRun(states, steps) && Reliable(states, steps) && n < |states| && !states[0].decodes
    ensures !states[n].decodes && states[n].succeeded == [] && NobodyExecutes(states[n].clients)
  {
    if n > 0 {
      UndecodableLockExecutesNothing(states, steps, n - 1);
      RunStaysIdle(states, steps, n - 1);
    }
  }

  lemma RunStaysIdle(states: seq<State>, steps: seq<Step>, n: nat)
    requires IsRun(states, steps) && Reliable(states, steps) && n < |steps|
    requires !states[n].decodes && states[n].succeeded == [] && NobodyExecutes(states[n].clients)
    ensures !states[n+1].decodes && states[n+1].succeeded == [] && NobodyExecutes(states[n+1].clients)
  {
    RunKeepsInv(states, steps, n);
    assert Timely(states[n]);
    UndecodableStep(states[n], steps[n]);
  }

  // ---------- Each of the three assumptions is needed ----------

  /** No command is executed after its caller gave up. */
  ghost predicate Prompt(steps: seq<Step>) {
    forall step :: step in steps ==> !step.LateCommand?
  }

  /** What a longer run keeps of a shorter one. */
  ghost predicate AsGood(states: seq<State>, steps: seq<Step>, states': seq<State>, steps': seq<Step>) {
    && (StoresReach(steps) ==> StoresReach(steps'))
    && (Prompt(steps) ==> Prompt(steps'))
    && (AllTimely(states) ==> AllTimely(states'))
    && (forall step :: step in steps ==> step in steps')
  }

  /** A run with one more step. */
  lemma Continues(before: seq<State>, steps: seq<Step>, step: Step) returns (states': seq<State>, steps': seq<Step>)
    requires IsRun(before, steps) && Enabled(before[|steps|], step)
    ensures IsRun(states', steps') && states'[|steps'|] == Apply(before[|steps|], step) && steps' == steps + [step]
    ensures StoresReach(steps) && !LosesResult(step) ==> StoresReach(steps')
    ensures Prompt(steps) && !step.LateCommand? ==> Prompt(steps')
    ensures AllTimely(before) && Timely(Apply(before[|steps|], step)) ==> AllTimely(states')
  {
    states', steps' := before + [Apply(before[|steps|], step)], steps + [step];
  }

  /** A step that moves one client within the lifetime of its lock. */
  lemma MoveIsTimely(s: State, c: nat, client: Client, s': State)
    requires Timely(s) && s'.now == s.now && s'.clients == s.clients[c := client]
    requires Critical(client.phase) ==> s.now < client.deadline
    ensures Timely(s')
  {
    forall d | d in s'.clients && Critical(s'.clients[d].phase) ensures s'.now < s'.clients[d].deadline {
      assert d != c ==> s'.clients[d] == s.clients[d];
    }
  }

  /** The same for a client that is inside its lock's lifetime already, or outside a critical section. */
  lemma Moves(s: State, c: nat, client: Client, before: seq<State>, steps: seq<Step>, step: Step) returns (states': seq<State>, steps': seq<Step>)
    requires IsRun(before, steps) && before[|steps|] == s && Enabled(s, step) && !LosesResult(step) && !step.LateCommand?
    requires Apply(s, step).now == s.now && Apply(s, step).clients == s.clients[c := client]
    requires Critical(client.phase) ==> s.now < client.deadline
    ensures IsRun(states', steps') && states'[|steps'|] == Apply(s, step) && AsGood(before, steps, states', steps')
  {
    if AllTimely(before) {
      assert s in before;
      MoveIsTimely(s, c, client, Apply(s, step));
    }
    states', steps' := Continues(before, steps, step);
  }

  /** A client that finds no result and a free lock has the lock after three steps. */
  lemma Locks(s: State, c: nat, before: seq<State>, steps: seq<Step>) returns (states': seq<State>, steps': seq<Step>)
    requires IsRun(before, steps) && before[|steps|] == s
    requires c in s.clients && s.clients[c].phase == ReadResult && s.result == None && Live(s.lock, s.now) == None
    ensures IsRun(states', steps') && AsGood(before, steps, states', steps')
    ensures states'[|steps'|] ==
              s.(lock := Some(Entry(OWNER, s.now + LOCK_TTL)), owner := c,
                 clients := s.clients[c := Client(CheckResult, s.now + LOCK_TTL)])
  {
    var deadline := s.clients[c].deadline;
    states', steps' := Moves(s, c, Client(ReadLock, deadline), before, steps, GetResult(c));
    var s1 := s.(clients := s.clients[c := Client(ReadLock, deadline)]);
    states', steps' := Moves(s1, c, Client(Acquiring, deadline), states', steps', GetLock(c));
    var s2 := s.(clients := s.clients[c := Client(Acquiring, deadline)]);
    assert s1.clients[c := Client(Acquiring, deadline)] == s2.clients;
    states', steps' := Moves(s2, c, Client(CheckResult, s.now + LOCK_TTL), states', steps', Acquire(c));
    assert s2.clients[c := Client(CheckResult, s.now + LOCK_TTL)] == s.clients[c := Client(CheckResult, s.now + LOCK_TTL)];
  }

  /** It is executing after two more. */
  lemma Enters(s: State, c: nat, before: seq<State>, steps: seq<Step>) returns (states': seq<State>, steps': seq<Step>)
    requires IsRun(before, steps) && before[|steps|] == s
    requires c in s.clients && s.clients[c].phase == ReadResult && s.result == None && Live(s.lock, s.now) == None && s.decodes
    ensures IsRun(states', steps') && AsGood(before, steps, states', steps')
    ensures states'[|steps'|] ==
              s.(lock := Some(Entry(OWNER, s.now + LOCK_TTL)), owner := c,
                 clients := s.clients[c := Client(Executing, s.now + LOCK_TTL)])
  {
    var deadline := s.now + LOCK_TTL;
    var locked := s.(lock := Some(Entry(OWNER, deadline)), owner := c, clients := s.clients[c := Client(CheckResult, deadline)]);
    states', steps' := Locks(s, c, before, steps);
    states', steps' := Moves(locked, c, Client(CheckLock, deadline), states', steps', GetResult(c));
    var checked := locked.(clients := s.clients[c := Client(CheckLock, deadline)]);
    assert locked.clients[c := Client(CheckLock, deadline)] == checked.clients;
    states', steps' := Moves(checked, c, Client(Executing, deadline), states', steps', GetLock(c));
    assert checked.clients[c := Client(Executing, deadline)] == s.clients[c := Client(Executing, deadline)];
  }

  const NEWCOMER := Client(ReadResult, 0)

  /** Client 0 has failed in state phase and its lock has expired; two clients are about to call. */
  function LockExpired(phase: Phase, late: set<Late>): State {
    State(true, LOCK_TTL, Some(Entry(OWNER, LOCK_TTL)), 0, None,
          map[0 := Client(phase, LOCK_TTL), 1 := NEWCOMER, 2 := NEWCOMER], [], late)
  }

  lemma ExecutionFails() returns (states: seq<State>, steps: seq<Step>)
    ensures IsRun(states, steps) && StoresReach(steps) && Prompt(steps) && AllTimely(states)
    ensures states[|steps|] == State(true, 0, Some(Entry(OWNER, LOCK_TTL)), 0, None,
              map[0 := Client(ReleaseFailed, LOCK_TTL), 1 := NEWCOMER, 2 := NEWCOMER], [], {})
  {
    var s0 := State(true, 0, None, 0, None, map[0 := NEWCOMER, 1 := NEWCOMER, 2 := NEWCOMER], [], {});
    states, steps := Enters(s0, 0, [s0], []);
    states, steps := Continues(states, steps, ExecuteError(0));
  }

  /** A failed execution whose release comes after its lock expired deletes the lock of client 1,
      since every lock carries the same owner. */
  lemma LateReleaseFreesLock() returns (states: seq<State>, steps: seq<Step>)
    ensures IsRun(states, steps) && StoresReach(steps) && Prompt(steps)
    ensures var s := states[|steps|];
            && s.decodes && s.lock == None && s.result == None && s.succeeded == [] && 1 in s.clients && 2 in s.clients
            && s.clients[1].phase == Executing && s.clients[2].phase == ReadResult
  {
    states, steps := ExecutionFails();
    assert Apply(states[|steps|], Tick(LOCK_TTL)) == LockExpired(ReleaseFailed, {});
    states, steps := Continues(states, steps, Tick(LOCK_TTL));
    states, steps := Enters(LockExpired(ReleaseFailed, {}), 1, states, steps);
    states, steps := Continues(states, steps, Release(0, true));
  }

  /** A third client then executes beside the second: critical sections that outlive their lock break
      at-most-once even if everything else is as it should be. */
  lemma LateReleaseExecutesTwice() returns (states: seq<State>, steps: seq<Step>)
    ensures IsRun(states, steps) && StoresReach(steps) && Prompt(steps) && |states[|steps|].succeeded| == 2
  {
    states, steps := LateReleaseFreesLock();
    states, steps := Enters(states[|steps|], 2, states, steps);
    states, steps := Continues(states, steps, ExecuteOk(1, "a"));
    states, steps := Continues(states, steps, ExecuteOk(2, "b"));
  }

  /** Client 0 has given up its release and its lock has expired. */
  lemma GivesUpRelease() returns (states: seq<State>, steps: seq<Step>)
    ensures IsRun(states, steps) && StoresReach(steps) && AllTimely(states)
    ensures states[|steps|] == LockExpired(Failed, {LateUnlock})
  {
    states, steps := ExecutionFails();
    var gone := State(true, 0, Some(Entry(OWNER, LOCK_TTL)), 0, None,
                      map[0 := Client(Failed, LOCK_TTL), 1 := NEWCOMER, 2 := NEWCOMER], [], {LateUnlock});
    assert Apply(states[|steps|], Release(0, false)) == gone;
    states, steps := Continues(states, steps, Release(0, false));
    assert Apply(gone, Tick(LOCK_TTL)) == LockExpired(Failed, {LateUnlock});
    states, steps := Continues(states, steps, Tick(LOCK_TTL));
  }

  /** Clients 1 and 2 are both executing, within the lifetime of the locks they took. */
  ghost predicate BothInside(s: State) {
    && 1 in s.clients && s.clients[1].phase == Executing && s.now < s.clients[1].deadline
    && 2 in s.clients && s.clients[2].phase == Executing && s.now < s.clients[2].deadline
  }

  lemma DelayedReleaseLetsTwoIn() returns (states: seq<State>, steps: seq<Step>)
    ensures IsRun(states, steps) && StoresReach(steps) && AllTimely(states)
    ensures BothInside(states[|steps|]) && states[|steps|].succeeded == []
  {
    states, steps := GivesUpRelease();
    states, steps := Enters(LockExpired(Failed, {LateUnlock}), 1, states, steps);
    var held := states[|steps|];
    assert held in states;
    var freed := Apply(held, LateCommand(LateUnlock));
    assert freed == held.(lock := None);
    assert Timely(freed);
    states, steps := Continues(states, steps, LateCommand(LateUnlock));
    states, steps := Enters(freed, 2, states, steps);
  }

  /** So does a release that arrives after its caller gave up, with every critical section in time. */
  lemma DelayedReleaseExecutesTwice() returns (states: seq<State>, steps: seq<Step>)
    ensures IsRun(states, steps) && StoresReach(steps) && AllTimely(states) && |states[|steps|].succeeded| == 2
  {
    states, steps := DelayedReleaseLetsTwoIn();
    var s := states[|steps|];
    states, steps := Executes(s, 1, "a", states, steps);
    states, steps := Executes(states[|steps|], 2, "b", states, steps);
  }

  lemma Executes(s: State, c: nat, r: Response, before: seq<State>, steps: seq<Step>) returns (states': seq<State>, steps': seq<Step>)
    requires IsRun(before, steps) && before[|steps|] == s
    requires c in s.clients && s.clients[c].phase == Executing && s.now < s.clients[c].deadline
    ensures IsRun(states', steps') && AsGood(before, steps, states', steps')
    ensures states'[|steps'|] == s.(clients := s.clients[c := s.clients[c].(phase := Executed(r))], succeeded := s.succeeded + [(c, r)])
  {
    states', steps' := Moves(s, c, s.clients[c].(phase := Executed(r)), before, steps, ExecuteOk(c, r));
  }

  /** A successful execution whose result is lost, by a failed write or by a crash before it, is followed
      by another once the lock expires. */
  lemma LostResultExecutesTwice(crash: bool) returns (states: seq<State>, steps: seq<Step>)
    ensures IsRun(states, steps) && Prompt(steps) && AllTimely(states) && |states[|steps|].succeeded| == 2
    ensures LosingStep(crash) in steps
  {
    states, steps := LostLockExpires(crash);
    states, steps := Enters(ResultLost(crash, LOCK_TTL), 1, states, steps);
    states, steps := Executes(states[|steps|], 1, "b", states, steps);
  }

  lemma LostLockExpires(crash: bool) returns (states: seq<State>, steps: seq<Step>)
    ensures IsRun(states, steps) && Prompt(steps) && AllTimely(states)
    ensures LosingStep(crash) in steps && states[|steps|] == ResultLost(crash, LOCK_TTL)
  {
    states, steps := LosesResultOnce(crash);
    assert Apply(states[|steps|], Tick(LOCK_TTL)) == ResultLost(crash, LOCK_TTL);
    states, steps := Continues(states, steps, Tick(LOCK_TTL));
  }

  lemma ExecutesOnce() returns (states: seq<State>, steps: seq<Step>)
    ensures IsRun(states, steps) && Prompt(steps) && AllTimely(states)
    ensures states[|steps|] == State(true, 0, Some(Entry(OWNER, LOCK_TTL)), 0, None,
              map[0 := Client(Executed("a"), LOCK_TTL), 1 := NEWCOMER], [(0, "a")], {})
  {
    var s0 := State(true, 0, None, 0, None, map[0 := NEWCOMER, 1 := NEWCOMER], [], {});
    states, steps := Enters(s0, 0, [s0], []);
    states, steps := Continues(states, steps, ExecuteOk(0, "a"));
  }

  function LosingStep(crash: bool): Step {
    if crash then CrashUnstored(0) else StoreFails(0)
  }

  /** Client 0 has executed and its result is lost; client 1 is about to call. */
  function ResultLost(crash: bool, now: int): State {
    State(true, now, Some(Entry(OWNER, LOCK_TTL)), 0, None,
          map[0 := Client(if crash then Crashed else Returned("a"), LOCK_TTL), 1 := NEWCOMER], [(0, "a")],
          if crash then {} else {LateStore("a")})
  }

  lemma LosesResultOnce(crash: bool) returns (states: seq<State>, steps: seq<Step>)
    ensures IsRun(states, steps) && Prompt(steps) && AllTimely(states)
    ensures LosingStep(crash) in steps && states[|steps|] == ResultLost(crash, 0)
  {
    states, steps := ExecutesOnce();
    assert Apply(states[|steps|], LosingStep(crash)).clients == ResultLost(crash, 0).clients;
    states, steps := Continues(states, steps, LosingStep(crash));
  }

  // ---------- What a waiting client is told ----------

  /** Once a result is stored, a client that asks for it returns it: at its first read, at a poll, and after
      giving the lock back at its double check. */
  lemma StoredResultIsReturned(s: State, c: nat, executed: bool)
    requires s.result.Some? && c in s.clients
    requires s.clients[c].phase == ReadResult || s.clients[c].phase == WaitResult || s.clients[c].phase == CheckResult
    ensures var read := Apply(s, GetResult(c));
            if s.clients[c].phase == CheckResult
            then Enabled(read, Release(c, executed)) && Apply(read, Release(c, executed)).clients[c].phase == Returned(s.result.value)
            else read.clients[c].phase == Returned(s.result.value)
  {
  }

  /** Between the two GETs of a poll the result may be stored and the lock released: a poll that has found no
      result, and then looks for the lock, fails if and only if no readable lock is live by then, whether or
      not a result is stored meanwhile. */
  lemma PollFailsExactly(s: State, c: nat)
    requires c in s.clients && s.clients[c].phase == WaitLock
    ensures Apply(s, GetLock(c)).clients[c].phase == Failed <==> !s.decodes || Live(s.lock, s.now).None?
    ensures Apply(s, GetLock(c)).clients[c].phase != Failed ==> Apply(s, GetLock(c)).clients[c].phase == WaitResult
  {
  }

  /** Client 0 is executing; client 1 has come to the given phase meanwhile. */
  function WhileExecuting(phase: Phase): State {
    State(true, 0, Some(Entry(OWNER, LOCK_TTL)), 0, None, map[0 := Client(Executing, LOCK_TTL), 1 := Client(phase, 0)], [], {})
  }

  lemma ReadsWhileExecuting(phase: Phase, step: Step, next: Phase, before: seq<State>, steps: seq<Step>)
    returns (states': seq<State>, steps': seq<Step>)
    requires IsRun(before, steps) && before[|steps|] == WhileExecuting(phase)
    requires (phase == ReadResult && step == GetResult(1) && next == ReadLock)
             || (phase == ReadLock && step == GetLock(1) && next == WaitResult)
             || (phase == WaitResult && step == GetResult(1) && next == WaitLock)
    ensures IsRun(states', steps') && AsGood(before, steps, states', steps') && states'[|steps'|] == WhileExecuting(next)
  {
    var s := WhileExecuting(phase);
    assert Apply(s, step).clients == s.clients[1 := Client(next, 0)];
    states', steps' := Moves(s, 1, Client(next, 0), before, steps, step);
    assert s.clients[1 := Client(next, 0)] == WhileExecuting(next).clients;
  }

  lemma OneExecutes() returns (states: seq<State>, steps: seq<Step>)
    ensures IsRun(states, steps) && StoresReach(steps) && Prompt(steps) && AllTimely(states)
    ensures states[|steps|] == WhileExecuting(ReadResult)
  {
    var s0 := State(true, 0, None, 0, None, map[0 := NEWCOMER, 1 := NEWCOMER], [], {});
    states, steps := Enters(s0, 0, [s0], []);
  }

  /** Client 0 is executing, and client 1 has found no result in a poll. */
  lemma PollsBetween() returns (states: seq<State>, steps: seq<Step>)
    ensures IsRun(states, steps) && StoresReach(steps) && Prompt(steps) && AllTimely(states)
    ensures states[|steps|] == WhileExecuting(WaitLock)
  {
    states, steps := OneExecutes();
    states, steps := ReadsWhileExecuting(ReadResult, GetResult(1), ReadLock, states, steps);
    states, steps := ReadsWhileExecuting(ReadLock, GetLock(1), WaitResult, states, steps);
    states, steps := ReadsWhileExecuting(WaitResult, GetResult(1), WaitLock, states, steps);
  }

  /** A reliable run in which an execution succeeds and its result is stored, and a client that waited for it
      is told that the lock expired without one. */
  lemma WaiterMissesResult() returns (states: seq<State>, steps: seq<Step>)
    ensures IsRun(states, steps) && Reliable(states, steps)
    ensures var s := states[|steps|]; s.result == Some("a") && 1 in s.clients && s.clients[1].phase == Failed
  {
    states, steps := PollsBetween();
    states, steps := Executes(states[|steps|], 0, "a", states, steps);
    var s1 := states[|steps|];
    states, steps := Moves(s1, 0, Client(ReleaseStored("a"), LOCK_TTL), states, steps, StoreResult(0, false));
    var s2 := states[|steps|];
    states, steps := Moves(s2, 0, Client(Returned("a"), LOCK_TTL), states, steps, Release(0, true));
    var s3 := states[|steps|];
    states, steps := Moves(s3, 1, Client(Failed, 0), states, steps, GetLock(1));
    assert ReleasesHit(states, steps) by {
      forall i | 0 <= i < |steps| ensures !TakesForeignLock(states[i], steps[i]) {
        assert steps[i] in steps;
      }
    }
  }

  // ---------- When a further execution can succeed ----------

  /** The client has passed its double check and not finished executing, or no result is stored and it
      still is on its way there. */
  predicate CanExecute(s: State, c: nat) {
    || Racing(s, c)
    || (s.result.None? && c in s.clients && OnItsWay(s.clients[c].phase))
  }

  predicate OnItsWay(phase: Phase) {
    phase.ReadResult? || phase.ReadLock? || phase.Acquiring? || phase.CheckResult?
  }

  lemma StepAddsNobody(s: State, step: Step, c: nat)
    requires Enabled(s, step) && CanExecute(Apply(s, step), c)
    ensures CanExecute(s, c)
  {
  }

  lemma {:induction false} PathAddsNobody(states: seq<State>, steps: seq<Step>, n: nat)
    requires IsPath(states, steps) && n < |states| && forall c :: !CanExecute(states[0], c)
    ensures states[n].succeeded == states[0].succeeded && forall c :: !CanExecute(states[n], c)
  {
    if n > 0 {
      PathAddsNobody(states, steps, n - 1);
      forall c ensures !CanExecute(states[n], c) {
        if CanExecute(states[n], c) { StepAddsNobody(states[n-1], steps[n-1], c); }
      }
      SucceedsOnlyIfExecuting(states[n-1], steps[n-1]);
    }
  }

  lemma SucceedsOnlyIfExecuting(s: State, step: Step)
    requires Enabled(s, step) && forall c :: !CanExecute(s, c)
    ensures Apply(s, step).succeeded == s.succeeded
  {
    if step.ExecuteOk? {
      assert CanExecute(s, step.c);
    }
  }

  /** From s some path has one more success. */
  ghost predicate SuccessAhead(s: State, states: seq<State>, steps: seq<Step>) {
    IsPath(states, steps) && states[0] == s && |s.succeeded| < |states[|steps|].succeeded|
  }

  lemma Starts(s: State, step: Step, rest: seq<State>, more: seq<Step>) returns (states: seq<State>, steps: seq<Step>)
    requires Enabled(s, step) && Apply(s, step).succeeded == s.succeeded && SuccessAhead(Apply(s, step), rest, more)
    ensures SuccessAhead(s, states, steps)
  {
    states, steps := [s] + rest, [step] + more;
    forall i {:trigger steps[i]} | 0 <= i < |steps| ensures Enabled(states[i], steps[i]) && states[i+1] == Apply(states[i], steps[i]) {
      if i > 0 {
        assert states[i] == rest[i-1] && steps[i] == more[i-1];
      }
    }
  }

  /** How long until the lock is free. */
  function UntilFree(s: State): nat {
    if s.lock.Some? && s.now < s.lock.value.expiresAt then s.lock.value.expiresAt - s.now else 0
  }

  function StepsAway(phase: Phase): nat {
    match phase
    case ReadResult => 9
    case ReadLock => 7
    case Acquiring => 5
    case CheckResult => 3
    case CheckLock => 2
    case _ => 0
  }

  /** The step that brings the client nearer to its execution; it needs the lock free or does not ask. */
  function Onward(phase: Phase, c: nat): Step {
    match phase
    case ReadResult => GetResult(c)
    case ReadLock => GetLock(c)
    case Acquiring => Acquire(c)
    case CheckResult => GetResult(c)
    case CheckLock => GetLock(c)
    case _ => ExecuteOk(c, "")
  }

  lemma OnwardNearer(s: State, c: nat)
    requires CanExecute(s, c) && !s.clients[c].phase.Executing? && Live(s.lock, s.now).None?
    ensures var step := Onward(s.clients[c].phase, c);
            && Enabled(s, step) && Apply(s, step).succeeded == s.succeeded && CanExecute(Apply(s, step), c)
            && StepsAway(Apply(s, step).clients[c].phase) < StepsAway(s.clients[c].phase)
  {
  }

  /** A client that can execute does so with success once the lock is waited for and the calls answer. */
  lemma {:induction false} ReachesSuccess(s: State, c: nat) returns (states: seq<State>, steps: seq<Step>)
    requires CanExecute(s, c)
    ensures SuccessAhead(s, states, steps)
    decreases StepsAway(s.clients[c].phase)
  {
    var step := Onward(s.clients[c].phase, c);
    if s.clients[c].phase.Executing? {
      states, steps := [s, Apply(s, step)], [step];
    } else {
      var free := Apply(s, Tick(UntilFree(s)));
      OnwardNearer(free, c);
      states, steps := ReachesSuccess(Apply(free, step), c);
      states, steps := Starts(free, step, states, steps);
      states, steps := Starts(s, Tick(UntilFree(s)), states, steps);
    }
  }

  /** From any state, a further execution can succeed if and only if some client has passed its double
      check and is not done executing, or no result is stored and some client is on its way there. */
  lemma FurtherSuccessExactly(s: State)
    ensures (exists states, steps :: SuccessAhead(s, states, steps)) <==> exists c :: CanExecute(s, c)
  {
    if c :| CanExecute(s, c) {
      var states, steps := ReachesSuccess(s, c);
    } else {
      forall states, steps | IsPath(states, steps) && states[0] == s ensures !SuccessAhead(s, states, steps) {
        PathAddsNobody(states, steps, |steps|);
      }
    }
  }

  // ---------- How far it can go wrong ----------

  /** The client has found no result in its double check and may still execute. */
  predicate Racing(s: State, c: nat) {
    c in s.clients && (s.clients[c].phase.CheckLock? || s.clients[c].phase.Executing?)
  }

  lemma StoredStepRaces(s: State, step: Step)
    requires Enabled(s, step) && s.result.Some?
    ensures var s' := Apply(s, step);
            && s'.result.Some?
            && (forall c :: Racing(s', c) ==> Racing(s, c))
            && (if step.ExecuteOk? then s'.succeeded == s.succeeded + [(step.c, step.r)] && Racing(s, step.c) && !Racing(s', step.c)
                else s'.succeeded == s.succeeded)
  {
  }

  /** From s to s' only clients that raced in s have executed with success, each at most once. */
  ghost predicate OnlyRacers(s: State, s': State) {
    && s'.result.Some?
    && (forall c :: Racing(s', c) ==> Racing(s, c))
    && |s.succeeded| <= |s'.succeeded| && s'.succeeded[..|s.succeeded|] == s.succeeded
    && (forall i :: |s.succeeded| <= i < |s'.succeeded| ==> Racing(s, s'.succeeded[i].0) && !Racing(s', s'.succeeded[i].0))
    && (forall i, j :: |s.succeeded| <= i < j < |s'.succeeded| ==> s'.succeeded[i].0 != s'.succeeded[j].0)
  }

  lemma StepKeepsRacers(s: State, mid: State, step: Step)
    requires OnlyRacers(s, mid) && Enabled(mid, step)
    ensures OnlyRacers(s, Apply(mid, step))
  {
    StoredStepRaces(mid, step);
  }

  /** In every run, reliable or not, once a result is stored no further client gets past its double check:
      only those that had already found none can still execute, each at most once. Where there is none,
      no execution succeeds any more. */
  lemma {:induction false} StoredResultStopsExecutions(states: seq<State>, steps: seq<Step>, i: nat, j: nat)
    requires IsRun(states, steps) && i <= j < |states| && states[i].result.Some?
    ensures OnlyRacers(states[i], states[j])
    ensures (forall c :: !Racing(states[i], c)) ==> states[j].succeeded == states[i].succeeded
  {
    if i < j {
      StoredResultStopsExecutions(states, steps, i, j - 1);
      StepKeepsRacers(states[i], states[j-1], steps[j-1]);
    }
    var before, after := states[i].succeeded, states[j].succeeded;
    if |before| < |after| {
      assert Racing(states[i], after[|before|].0);
    }
  }
}
