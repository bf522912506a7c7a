/** The poll loop of WaitForIdempotencyResult, on an idealised clock that only sleeping advances. */
module IdempotencyWait {
  import opened Wrappers
  import opened Idempotency

  datatype WaitOutcome = Answered(r: Response) | Broken | LockExpired | TimedOut

  /** The pause after poll i, in milliseconds. */
  function Pause(i: nat): nat {
    if i == 0 then 100 else if 2 * Pause(i - 1) > 2000 then 2000 else 2 * Pause(i - 1)
  }

  /** When poll i happens, counted from the first one. */
  function PollTime(i: nat): nat {
    if i == 0 then 0 else PollTime(i - 1) + Pause(i - 1)
  }

  function Verdict(reading: Reply<Record>): WaitOutcome
    requires reading != Ok(Locked)
  {
    match reading
    case Error => Broken
    case Ok(record) => if record.Result? then Answered(record.r) else LockExpired
  }

  /** The wait ends with the first reading that is not LOCKED, if a poll before the deadline meets one. */
  ghost predicate WaitEnds(read: nat -> Reply<Record>, timeout: int, outcome: WaitOutcome, polls: nat) {
    && (0 < polls ==> PollTime(polls - 1) < timeout)
    && (forall i: nat :: i < polls - 1 ==> read(i) == Ok(Locked))
    && (if outcome.TimedOut? then timeout <= PollTime(polls) && (0 < polls ==> read(polls - 1) == Ok(Locked))
        else 0 < polls && read(polls - 1) != Ok(Locked) && outcome == Verdict(read(polls - 1)))
  }

  method WaitForIdempotencyResult(read: nat -> Reply<Record>, timeout: int) returns (outcome: WaitOutcome, polls: nat)
    ensures WaitEnds(read, timeout, outcome, polls)
  {
    var elapsed, backoff := 0, 100;
    polls := 0;
    while elapsed < timeout
      invariant elapsed == PollTime(polls) && backoff == Pause(polls)
      invariant 0 < polls ==> PollTime(polls - 1) < timeout
      invariant forall i: nat :: i < polls ==> read(i) == Ok(Locked)
      invariant backoff > 0
      decreases timeout - elapsed
    {
      var state := read(polls);
      polls := polls + 1;
      if state.Error? {
        return Broken, polls;
      }
      match state.value
      case Absent => return LockExpired, polls;
      case Result(r) => return Answered(r), polls;
      case Locked =>
        elapsed := elapsed + backoff;
        backoff := backoff * 2;
        if backoff > 2000 {
          backoff := 2000;
        }
    }
    outcome := TimedOut;
  }

  /** If a poll before the deadline reads a result, after nothing but LOCKED readings, the wait answers that
      result at that poll. */
  lemma WaitFindsResult(read: nat -> Reply<Record>, timeout: int, outcome: WaitOutcome, polls: nat, i: nat, r: Response)
    requires WaitEnds(read, timeout, outcome, polls)
    requires PollTime(i) < timeout && read(i) == Ok(Result(r)) && forall j: nat :: j < i ==> read(j) == Ok(Locked)
    ensures outcome == Answered(r) && polls == i + 1
  {
    WaitStopsAt(read, timeout, outcome, polls, i);
  }

  /** The first reading that is not LOCKED, before the deadline, ends the wait. */
  lemma WaitStopsAt(read: nat -> Reply<Record>, timeout: int, outcome: WaitOutcome, polls: nat, i: nat)
    requires WaitEnds(read, timeout, outcome, polls)
    requires PollTime(i) < timeout && read(i) != Ok(Locked) && forall j: nat :: j < i ==> read(j) == Ok(Locked)
    ensures polls == i + 1 && !outcome.TimedOut?
  {
    if outcome.TimedOut? && polls < i { PollsAdvance(polls, i); }
  }

  /** If it reads a failure, or no record at all, the wait answers an error of its own kind. */
  lemma WaitFindsNoResult(read: nat -> Reply<Record>, timeout: int, outcome: WaitOutcome, polls: nat, i: nat)
    requires WaitEnds(read, timeout, outcome, polls)
    requires PollTime(i) < timeout && (read(i) == Error || read(i) == Ok(Absent)) && forall j: nat :: j < i ==> read(j) == Ok(Locked)
    ensures outcome == (if read(i) == Error then Broken else LockExpired) && polls == i + 1
  {
    WaitStopsAt(read, timeout, outcome, polls, i);
  }

  /** If every poll before the deadline reads LOCKED, the wait times out. */
  lemma WaitTimesOut(read: nat -> Reply<Record>, timeout: int, outcome: WaitOutcome, polls: nat)
    requires WaitEnds(read, timeout, outcome, polls)
    requires forall j: nat :: PollTime(j) < timeout ==> read(j) == Ok(Locked)
    ensures outcome == TimedOut
  {
  }

  lemma {:induction false} PollsAdvance(i: nat, j: nat)
    requires i < j
    ensures PollTime(i) < PollTime(j)
  {
    PausePositive(j - 1);
    if i < j - 1 {
      PollsAdvance(i, j - 1);
    }
  }

  lemma {:induction false} PausePositive(i: nat)
    ensures Pause(i) > 0
  {
    if i > 0 {
      PausePositive(i - 1);
    }
  }

  /** The readings and the deadline leave the wait one outcome after one number of polls. */
  lemma WaitIsDetermined(read: nat -> Reply<Record>, timeout: int, a: WaitOutcome, p: nat, b: WaitOutcome, q: nat)
    requires WaitEnds(read, timeout, a, p) && WaitEnds(read, timeout, b, q)
    ensures a == b && p == q
  {
    if p < q {
      FewerPolls(read, timeout, a, p, b, q);
    } else if q < p {
      FewerPolls(read, timeout, b, q, a, p);
    }
  }

  lemma FewerPolls(read: nat -> Reply<Record>, timeout: int, a: WaitOutcome, p: nat, b: WaitOutcome, q: nat)
    requires WaitEnds(read, timeout, a, p) && WaitEnds(read, timeout, b, q)
    ensures p >= q
  {
    if p < q && a.TimedOut? && p < q - 1 {
      PollsAdvance(p, q - 1);
    }
  }

  /** From the sixth poll on they are two seconds apart; a thirty-second wait makes at most 19. */
  lemma {:induction false} PollTimes(i: nat)
    requires i >= 5
    ensures Pause(i) == 2000 && PollTime(i) == 3100 + 2000 * (i - 5)
    ensures i >= 19 ==> PollTime(i) > 30_000
  {
    if i == 5 {
      assert Pause(1) == 200 && Pause(2) == 400 && Pause(3) == 800 && Pause(4) == 1600;
      assert PollTime(2) == 300 && PollTime(4) == 1500;
    } else {
      PollTimes(i - 1);
    }
  }
}
