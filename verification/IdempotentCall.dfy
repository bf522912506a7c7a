/**
 ExecuteIdempotent as one caller runs it (control_plane/store/redis_idempotency.go), against keys that
 nobody else touches meanwhile. Its every command is the step of the protocol in module Idempotency
 that the answers of the remote calls ask for.
 */
module IdempotentCall {
  import opened Wrappers
  import opened LockStore
  import opened Idempotency
  import opened IdempotencyWait

  datatype AcquireCall = Answers | Lost(executed: bool)

  datatype StoreCall = Stores | StoresUnseen | Rejected

  /** What the remote calls and the caller's own function answer; a read is cut at its first or its
      second GET. */
  datatype Answers = Answers(
    resultReadable: bool,
    lockReadable: bool,
    acquire: AcquireCall,
    resultRereadable: bool,
    lockRereadable: bool,
    execution: Reply<Response>,
    store: StoreCall,
    releaseExecuted: bool)

  datatype Outcome = Done(r: Response) | Failure

  const WAIT_TIMEOUT := 30_000

  function Concluded(phase: Phase): Option<Outcome> {
    match phase
    case Returned(r) => Some(Done(r))
    case Failed => Some(Failure)
    case _ => None
  }

  function AfterWait(answer: WaitOutcome): Outcome {
    if answer.Answered? then Done(answer.r) else Failure
  }

  /** A wait over these readings ends with this outcome. */
  ghost predicate Waited(read: nat -> Reply<Record>, outcome: Outcome) {
    exists answer, polls :: WaitEnds(read, WAIT_TIMEOUT, answer, polls) && outcome == AfterWait(answer)
  }

  /** The step that the answers ask for. */
  function NextStep(phase: Phase, c: nat, a: Answers): Step
    requires Runs(phase)
  {
    match phase
    case ReadResult => if a.resultReadable then GetResult(c) else GetError(c)
    case ReadLock => if a.lockReadable then GetLock(c) else GetError(c)
    case Acquiring => if a.acquire.Answers? then Acquire(c) else AcquireError(c, a.acquire.executed)
    case CheckResult => if a.resultRereadable then GetResult(c) else GetError(c)
    case CheckLock => if a.lockRereadable then GetLock(c) else GetError(c)
    case Executing => if a.execution.Ok? then ExecuteOk(c, a.execution.value) else ExecuteError(c)
    case Executed(_) => if a.store.Rejected? then StoreFails(c) else StoreResult(c, a.store.StoresUnseen?)
    case _ => Release(c, a.releaseExecuted)
  }

  /** A phase in which the caller itself moves on. */
  predicate Runs(phase: Phase) {
    Concluded(phase).None? && !phase.WaitResult? && !phase.WaitLock? && !phase.Crashed?
  }

  /** How many commands are left at most. */
  function Rank(phase: Phase): nat {
    match phase
    case ReadResult => 8
    case ReadLock => 7
    case Acquiring => 6
    case CheckResult => 5
    case CheckLock => 4
    case Executing => 3
    case Executed(_) => 2
    case ReleaseStored(_) => 1
    case ReleaseFound(_) => 1
    case ReleaseFailed => 1
    case _ => 0
  }

  /** The protocol run by client c alone until it is done or has to wait. */
  function Alone(s: State, c: nat, a: Answers): (e: State)
    requires c in s.clients
    ensures c in e.clients
    decreases Rank(s.clients[c].phase)
  {
    var phase := s.clients[c].phase;
    if Runs(phase) then Alone(Apply(s, NextStep(phase, c, a)), c, a) else s
  }

  /** One command further. */
  lemma StepAlone(s: State, c: nat, a: Answers) returns (s': State)
    requires c in s.clients && Runs(s.clients[c].phase)
    ensures s' == Apply(s, NextStep(s.clients[c].phase, c, a)) && Alone(s', c, a) == Alone(s, c, a)
  {
    s' := Apply(s, NextStep(s.clients[c].phase, c, a));
  }

  /** The double check's two GETs, or the one that settles it. */
  lemma ReadAgain(s: State, c: nat, a: Answers) returns (s': State)
    requires c in s.clients && s.clients[c].phase == CheckResult
    ensures s'.decodes == s.decodes && s'.now == s.now && s'.lock == s.lock && s'.result == s.result && s'.succeeded == s.succeeded
    ensures c in s'.clients && Alone(s', c, a) == Alone(s, c, a)
    ensures s'.clients[c].phase ==
            if !a.resultRereadable then ReleaseFailed
            else if s.result.Some? then ReleaseFound(s.result.value)
            else if !a.lockRereadable || (Live(s.lock, s.now).Some? && !s.decodes) then ReleaseFailed
            else Executing
  {
    s' := StepAlone(s, c, a);
    if s'.clients[c].phase == CheckLock {
      s' := StepAlone(s', c, a);
    }
  }

  /** The first check's two GETs, or the one that settles it. */
  lemma ReadFirst(s: State, c: nat, a: Answers) returns (s': State)
    requires c in s.clients && s.clients[c].phase == ReadResult
    ensures s'.decodes == s.decodes && s'.now == s.now && s'.lock == s.lock && s'.result == s.result && s'.succeeded == s.succeeded
    ensures c in s'.clients && Alone(s', c, a) == Alone(s, c, a)
    ensures s'.clients[c].phase ==
            if !a.resultReadable then Failed
            else if s.result.Some? then Returned(s.result.value)
            else if !a.lockReadable then Failed
            else if Live(s.lock, s.now).None? then Acquiring
            else if s.decodes then WaitResult else Failed
  {
    s' := StepAlone(s, c, a);
    if s'.clients[c].phase == ReadLock {
      s' := StepAlone(s', c, a);
    }
  }

  /** The acquisition. */
  lemma AcquireStep(s: State, c: nat, a: Answers) returns (s': State)
    requires c in s.clients && s.clients[c].phase == Acquiring
    ensures s'.decodes == s.decodes && s'.now == s.now && s'.result == s.result && s'.succeeded == s.succeeded
    ensures s'.lock == if a.acquire.Answers? || a.acquire.executed then SetNx(s.lock, OWNER, LOCK_TTL, s.now).0 else s.lock
    ensures c in s'.clients && Alone(s', c, a) == Alone(s, c, a)
    ensures s'.clients[c].phase ==
            if a.acquire.Lost? then Failed else if Live(s.lock, s.now).None? then CheckResult else WaitResult
  {
    s' := StepAlone(s, c, a);
  }

  /** The result write. */
  lemma StoreStep(s: State, c: nat, a: Answers) returns (s': State)
    requires c in s.clients && s.clients[c].phase.Executed?
    ensures s'.decodes == s.decodes && s'.now == s.now && s'.lock == s.lock && c in s'.clients && Alone(s', c, a) == Alone(s, c, a)
    ensures var r := s.clients[c].phase.r;
            && s'.result == (if a.store.Rejected? then s.result else Some(r))
            && s'.clients[c].phase == if a.store.Stores? then ReleaseStored(r) else Returned(r)
  {
    s' := StepAlone(s, c, a);
  }

  /** The release, which ends the call. */
  lemma ReleaseStep(s: State, c: nat, a: Answers)
    requires c in s.clients && Rank(s.clients[c].phase) == 1
    ensures var e := Alone(s, c, a);
            && e.decodes == s.decodes && e.result == s.result
            && e.lock == (if a.releaseExecuted then CompareAndDelete(s.lock, OWNER, s.now) else s.lock)
            && e.clients[c].phase == AfterRelease(s.clients[c].phase)
  {
    var s' := StepAlone(s, c, a);
  }

  class IdempotencyKey {
    const decodes: bool
    var lock: Slot<string>
    var result: Option<Response>

    constructor (decodes: bool)
      ensures this.decodes == decodes && lock == None && result == None
    {
      this.decodes, lock, result := decodes, None, None;
    }

    /** The two-key read. An error for either GET, or for a lock that does not decode. */
    method GetIdempotencyState(now: int, resultReadable: bool, lockReadable: bool) returns (state: Reply<Record>)
      ensures state ==
              if !resultReadable then Error
              else if result.Some? then Ok(Result(result.value))
              else if !lockReadable then Error
              else if Live(lock, now).None? then Ok(Absent)
              else if decodes then Ok(Locked) else Error
    {
      if !resultReadable {
        return Error;
      }
      if result.Some? {
        return Ok(Result(result.value));
      }
      if !lockReadable {
        return Error;
      }
      if lock.None? || lock.value.expiresAt <= now {
        return Ok(Absent);
      }
      state := if decodes then Ok(Locked) else Error;
    }

    /** The key's state agrees with that of the protocol, and the caller is where the protocol has it. */
    ghost predicate At(s: State, c: nat, phase: Phase)
      reads this
    {
      s.decodes == decodes && s.lock == lock && s.result == result && c in s.clients && s.clients[c].phase == phase
    }

    /** The call ended as the protocol does. */
    ghost predicate Ends(s: State, c: nat, outcome: Outcome)
      reads this
    {
      c in s.clients && At(s, c, s.clients[c].phase) && Concluded(s.clients[c].phase) == Some(outcome)
    }

    method AcquireLock(now: int) returns (acquired: bool)
      modifies this`lock
      ensures acquired == SetNx(old(lock), OWNER, LOCK_TTL, now).1
      ensures lock == SetNx(old(lock), OWNER, LOCK_TTL, now).0
    {
      acquired := lock.None? || lock.value.expiresAt <= now;
      if acquired {
        lock := Some(Entry(OWNER, now + LOCK_TTL));
      }
    }

    method ReleaseLock(now: int, executed: bool)
      modifies this`lock
      ensures lock == if executed then CompareAndDelete(old(lock), OWNER, now) else old(lock)
    {
      if executed && lock.Some? && now < lock.value.expiresAt && lock.value.value == OWNER {
        lock := None;
      }
    }

    /** Writes the result, then gives the lock back; the release is not tried after a failed write. */
    method StoreIdempotencyResult(r: Response, a: Answers, now: int, ghost s: State, ghost c: nat)
      requires At(s, c, Executed(r)) && s.now == now
      modifies this
      ensures Ends(Alone(s, c, a), c, Done(r))
    {
      ghost var s1 := StoreStep(s, c, a);
      if a.store.Rejected? {
        return;
      }
      result := Some(r);
      if a.store.StoresUnseen? {
        return;
      }
      ReleaseStep(s1, c, a);
      ReleaseLock(now, a.releaseExecuted);
    }

    /** Gives the lock back and ends as the protocol's release does. */
    method EndWithRelease(a: Answers, now: int, ghost s: State, ghost c: nat, ghost phase: Phase)
      requires At(s, c, phase) && s.now == now && (phase.ReleaseFound? || phase.ReleaseFailed?)
      modifies this
      ensures Ends(Alone(s, c, a), c, if phase.ReleaseFound? then Done(phase.r) else Failure)
    {
      ReleaseStep(s, c, a);
      ReleaseLock(now, a.releaseExecuted);
    }

    /** The execution, between the double check and the result. */
    method Execute(a: Answers, now: int, ghost s: State, ghost c: nat) returns (outcome: Outcome)
      requires At(s, c, Executing) && s.now == now
      modifies this
      ensures Ends(Alone(s, c, a), c, outcome)
    {
      ghost var s1 := StepAlone(s, c, a);
      if a.execution.Error? {
        EndWithRelease(a, now, s1, c, ReleaseFailed);
        return Failure;
      }
      StoreIdempotencyResult(a.execution.value, a, now, s1, c);
      outcome := Done(a.execution.value);
    }

    /** The double check and what follows it, with the lock just acquired. */
    method ExecuteLocked(a: Answers, now: int, ghost s: State, ghost c: nat) returns (outcome: Outcome)
      requires At(s, c, CheckResult) && s.now == now
      modifies this
      ensures Ends(Alone(s, c, a), c, outcome)
    {
      var existing := GetIdempotencyState(now, a.resultRereadable, a.lockRereadable);
      ghost var s1 := ReadAgain(s, c, a);
      if existing.Error? {
        EndWithRelease(a, now, s1, c, ReleaseFailed);
        return Failure;
      }
      if existing.value.Result? {
        EndWithRelease(a, now, s1, c, ReleaseFound(existing.value.r));
        return Done(existing.value.r);
      }
      outcome := Execute(a, now, s1, c);
    }

    /** Polls until another caller's result shows, its lock is gone, or thirty seconds have passed. */
    method Wait(read: nat -> Reply<Record>) returns (outcome: Outcome)
      ensures Waited(read, outcome)
    {
      var answer, polls := WaitForIdempotencyResult(read, WAIT_TIMEOUT);
      outcome := AfterWait(answer);
    }

    /** read is what the polls find, if the call has to wait. */
    method ExecuteIdempotent(a: Answers, read: nat -> Reply<Record>, now: int, ghost s: State, ghost c: nat) returns (outcome: Outcome)
      requires At(s, c, ReadResult) && s.now == now
      modifies this
      ensures var e := Alone(s, c, a);
              if e.clients[c].phase.WaitResult? then At(e, c, WaitResult) && Waited(read, outcome) else Ends(e, c, outcome)
    {
      var existing := GetIdempotencyState(now, a.resultReadable, a.lockReadable);
      ghost var s1 := ReadFirst(s, c, a);
      if existing.Error? {
        return Failure;
      }
      match existing.value {
        case Result(r) => return Done(r);
        case Locked =>
          outcome := Wait(read);
          return;
        case Absent =>
      }
      ghost var s2 := AcquireStep(s1, c, a);
      if a.acquire.Lost? {
        if a.acquire.executed {
          var unseen := AcquireLock(now);
        }
        return Failure;
      }
      var acquired := AcquireLock(now);
      if !acquired {
        outcome := Wait(read);
        return;
      }
      outcome := ExecuteLocked(a, now, s2, c);
    }
  }

  // ---------- What one call, and its retry, amount to ----------

  /** A call that has to wait returns the result that a poll within thirty seconds reads after nothing but
      LOCKED readings; it fails if that poll reads a failure or no record, or if no poll reads anything but
      LOCKED. */
  lemma WaitReturnsResult(read: nat -> Reply<Record>, outcome: Outcome, i: nat)
    requires Waited(read, outcome)
    ensures PollTime(i) < 30_000 && read(i) != Ok(Locked) && (forall j: nat :: j < i ==> read(j) == Ok(Locked)) ==>
              outcome == if read(i).Ok? && read(i).value.Result? then Done(read(i).value.r) else Failure
    ensures (forall j: nat :: PollTime(j) < 30_000 ==> read(j) == Ok(Locked)) ==> outcome == Failure
  {
    var answer, polls :| WaitEnds(read, WAIT_TIMEOUT, answer, polls) && outcome == AfterWait(answer);
    if PollTime(i) < 30_000 && read(i) != Ok(Locked) && forall j: nat :: j < i ==> read(j) == Ok(Locked) {
      if read(i).Ok? && read(i).value.Result? {
        WaitFindsResult(read, WAIT_TIMEOUT, answer, polls, i, read(i).value.r);
      } else {
        WaitFindsNoResult(read, WAIT_TIMEOUT, answer, polls, i);
      }
    }
    if forall j: nat :: PollTime(j) < 30_000 ==> read(j) == Ok(Locked) {
      WaitTimesOut(read, WAIT_TIMEOUT, answer, polls);
    }
  }

  /** What the client is about to return is stored. */
  predicate PublishedBy(phase: Phase, result: Option<Response>) {
    Answer(phase).Some? ==> result == Answer(phase)
  }

  /** No client but c has moved, and what c is about to return is stored. */
  ghost predicate Published(s: State, c: nat, e: State) {
    && c in s.clients && c in e.clients && e.clients == s.clients[c := e.clients[c]]
    && PublishedBy(e.clients[c].phase, e.result)
  }

  lemma StepMovesOne(s: State, c: nat, a: Answers)
    requires c in s.clients && Runs(s.clients[c].phase)
    ensures var clients := Apply(s, NextStep(s.clients[c].phase, c, a)).clients;
            c in clients && clients == s.clients[c := clients[c]]
  {
  }

  lemma StepLowersRank(s: State, c: nat, a: Answers)
    requires c in s.clients && Runs(s.clients[c].phase)
    ensures var s' := Apply(s, NextStep(s.clients[c].phase, c, a));
            c in s'.clients && Rank(s'.clients[c].phase) < Rank(s.clients[c].phase)
  {
  }

  /** Before the execution, only a GET of the result finds something to answer with. */
  lemma EarlyStepPublishes(s: State, c: nat, a: Answers)
    requires c in s.clients && Rank(s.clients[c].phase) > 2
    ensures var s' := Apply(s, NextStep(s.clients[c].phase, c, a)); PublishedBy(s'.clients[c].phase, s'.result)
  {
    if s.clients[c].phase.ReadResult? || s.clients[c].phase.CheckResult? {
      ReadPublishes(s, c, a);
    }
  }

  lemma ReadPublishes(s: State, c: nat, a: Answers)
    requires c in s.clients && (s.clients[c].phase.ReadResult? || s.clients[c].phase.CheckResult?)
    ensures var s' := Apply(s, NextStep(s.clients[c].phase, c, a)); PublishedBy(s'.clients[c].phase, s'.result)
  {
  }

  lemma StepPublishesAnswer(s: State, c: nat, a: Answers)
    requires c in s.clients && Runs(s.clients[c].phase) && !a.store.Rejected? && PublishedBy(s.clients[c].phase, s.result)
    ensures var s' := Apply(s, NextStep(s.clients[c].phase, c, a)); PublishedBy(s'.clients[c].phase, s'.result)
  {
    if Rank(s.clients[c].phase) > 2 { EarlyStepPublishes(s, c, a); }
  }

  lemma StepPublishes(s: State, c: nat, a: Answers, e: State) returns (e': State)
    requires Published(s, c, e) && Runs(e.clients[c].phase) && !a.store.Rejected?
    ensures Published(s, c, e') && Alone(e', c, a) == Alone(e, c, a)
    ensures Rank(e'.clients[c].phase) < Rank(e.clients[c].phase)
  {
    StepMovesOne(e, c, a);
    StepPublishesAnswer(e, c, a);
    StepLowersRank(e, c, a);
    e' := StepAlone(e, c, a);
  }

  lemma {:induction false} AlonePublishes(s: State, c: nat, a: Answers, e: State)
    requires Published(s, c, e) && !a.store.Rejected?
    ensures Published(s, c, Alone(e, c, a))
    decreases Rank(e.clients[c].phase)
  {
    if Runs(e.clients[c].phase) {
      var e' := StepPublishes(s, c, a, e);
      AlonePublishes(s, c, a, e');
    }
  }

  /** A retry after a call that returned a response and whose result write reached the store returns
      the same response and executes nothing, whatever its other calls answer. */
  lemma RetryReturnsFirst(s: State, c: nat, a: Answers, d: nat, b: Answers)
    requires c in s.clients && d in s.clients && c != d
    requires s.clients[c].phase == ReadResult && s.clients[d].phase == ReadResult
    requires Alone(s, c, a).clients[c].phase.Returned? && !a.store.Rejected? && b.resultReadable
    ensures var e := Alone(s, c, a);
            d in e.clients &&
            var e' := Alone(e, d, b);
            d in e'.clients && e'.clients[d].phase == e.clients[c].phase && e'.succeeded == e.succeeded
  {
    AlonePublishes(s, c, a, s);
    var e := Alone(s, c, a);
    assert e.clients[d] == s.clients[d];
    var e' := StepAlone(e, d, b);
  }

  /** An uninterrupted call executes its function successfully exactly if both keys are found absent
      twice, the lock is acquired to its knowledge, that lock decodes, and the function returns. */
  lemma ExecutesExactly(s: State, c: nat, a: Answers)
    requires c in s.clients && s.clients[c].phase == ReadResult
    ensures var e := Alone(s, c, a);
            var executes := && s.result.None? && Live(s.lock, s.now).None? && s.decodes
                            && a.resultReadable && a.lockReadable && a.acquire.Answers?
                            && a.resultRereadable && a.lockRereadable && a.execution.Ok?;
            e.succeeded == if executes then s.succeeded + [(c, a.execution.value)] else s.succeeded
  {
    var s1 := ReadFirst(s, c, a);
    if s1.clients[c].phase.Acquiring? {
      s1 := AcquireStep(s1, c, a);
      if s1.clients[c].phase.CheckResult? {
        LockedExecutesExactly(s1, c, a);
      }
    }
  }

  /** The same from the double check on. */
  lemma LockedExecutesExactly(s: State, c: nat, a: Answers)
    requires c in s.clients && s.clients[c].phase == CheckResult && Live(s.lock, s.now).Some?
    ensures var executes := s.result.None? && s.decodes && a.resultRereadable && a.lockRereadable && a.execution.Ok?;
            Alone(s, c, a).succeeded == if executes then s.succeeded + [(c, a.execution.value)] else s.succeeded
  {
    var s1 := ReadAgain(s, c, a);
    if s1.clients[c].phase.Executing? {
      s1 := StepAlone(s1, c, a);
    }
    OnlyExecutingSucceeds(s1, c, a);
  }

  lemma LateStepKeepsSucceeded(s: State, c: nat, a: Answers)
    requires c in s.clients && Runs(s.clients[c].phase) && Rank(s.clients[c].phase) <= 2
    ensures Apply(s, NextStep(s.clients[c].phase, c, a)).succeeded == s.succeeded
  {
  }

  lemma {:induction false} OnlyExecutingSucceeds(s: State, c: nat, a: Answers)
    requires c in s.clients && Rank(s.clients[c].phase) <= 2
    ensures Alone(s, c, a).succeeded == s.succeeded
    decreases Rank(s.clients[c].phase)
  {
    if Runs(s.clients[c].phase) {
      LateStepKeepsSucceeded(s, c, a);
      StepLowersRank(s, c, a);
      var s' := StepAlone(s, c, a);
      OnlyExecutingSucceeds(s', c, a);
    }
  }
}
