/** The elector object of control_plane/coordination/leader.go and the timing of its loop. */
module LeaderElector {
  import opened Wrappers
  import opened LockStore
  import opened LeaderElection
  import opened LeaseTenure

  /** What the remote calls of one timer event answer: epoch bump, SET NX, renewal. */
  datatype Replies = Replies(epoch: Reply<int>, lease: Reply<bool>, renewal: Reply<bool>, localNow: int)

  datatype Event = Shutdown | Timer(replies: Replies)

  /** Whether the release call reaches the store, and the store's clock then. */
  datatype ReleaseCall = ReleaseCall(reached: bool, now: int)

  const LOCK_KEY := "fluxforge:lock:leader"

  /** The loop's variables with the idealised time of the last timer event and of the last
      grant or renewal that was confirmed to the elector. */
  datatype LoopState = LoopState(elector: Elector, interval: int, renewFailures: int, now: int, lastConfirmed: int)

  const MAX_RENEW_FAILURES := 3

  function LeaseValue(nodeID: nat, ttl: Ttl, epoch: int, localNow: int): LockMetadata {
    LockMetadata(nodeID, epoch, localNow, localNow + ttl)
  }

  function AcquireStep(nodeID: nat, ttl: Ttl, el: Elector, r: Replies): (Elector, Reply<bool>) {
    if r.epoch.Error? then (el, Error) else
    var bumped := el.(currentEpoch := r.epoch.value);
    if r.lease == Ok(true)
    then (bumped.(currentValue := Some(LeaseValue(nodeID, ttl, r.epoch.value, r.localNow))), r.lease)
    else (bumped, r.lease)
  }

  function RenewStep(el: Elector, r: Replies): Reply<bool> {
    if el.currentValue.None? then Ok(false) else r.renewal
  }

  function NextInterval(ttl: Ttl, interval: int, failed: bool): int {
    if !failed then ttl / 3 else if 2 * interval > 10 * ttl then 10 * ttl else 2 * interval
  }

  /** One timer event. */
  function LoopTick(nodeID: nat, ttl: Ttl, st: LoopState, r: Replies): LoopState {
    var now := st.now + st.interval;
    if st.elector.isLeader then
      match RenewStep(st.elector, r)
      case Ok(true) => LoopState(st.elector, ttl / 3, 0, now, now)
      case Ok(false) => LoopState(StepDown(st.elector), ttl / 3, 0, now, st.lastConfirmed)
      case Error =>
        var interval := NextInterval(ttl, st.interval, true);
        if st.renewFailures + 1 >= MAX_RENEW_FAILURES
        then LoopState(StepDown(st.elector), interval, 0, now, st.lastConfirmed)
        else LoopState(st.elector, interval, st.renewFailures + 1, now, st.lastConfirmed)
    else
      var (el, reply) := AcquireStep(nodeID, ttl, st.elector, r);
      match reply
      case Ok(true) => LoopState(BecomeLeader(el), ttl / 3, 0, now, now)
      case Ok(false) => LoopState(el, ttl / 3, st.renewFailures, now, st.lastConfirmed)
      case Error => LoopState(el, NextInterval(ttl, st.interval, true), st.renewFailures, now, st.lastConfirmed)
  }

  function LoopRun(nodeID: nat, ttl: Ttl, st: LoopState, rs: seq<Replies>): LoopState {
    if rs == [] then st
    else LoopTick(nodeID, ttl, LoopRun(nodeID, ttl, st, rs[..|rs|-1]), rs[|rs|-1])
  }

  function LoopStart(ttl: Ttl, el: Elector, start: int): LoopState {
    LoopState(el, ttl / 3, 0, start, start)
  }

  /** The replies of the timer events before the loop is told to stop. */
  function TimersBeforeShutdown(events: seq<Event>): seq<Replies> {
    if events == [] || events[0].Shutdown? then []
    else [events[0].replies] + TimersBeforeShutdown(events[1..])
  }

  lemma LoopRunNext(nodeID: nat, ttl: Ttl, st: LoopState, rs: seq<Replies>, r: Replies)
    ensures LoopRun(nodeID, ttl, st, rs + [r]) == LoopTick(nodeID, ttl, LoopRun(nodeID, ttl, st, rs), r)
  {
    assert (rs + [r])[..|rs|] == rs;
  }

  lemma TimerFollows(events: seq<Event>, k: nat, done: seq<Replies>)
    requires k < |events| && events[k].Timer? && TimersBeforeShutdown(events) == done + TimersBeforeShutdown(events[k..])
    ensures TimersBeforeShutdown(events) == done + [events[k].replies] + TimersBeforeShutdown(events[k+1..])
  {
    assert events[k..][1..] == events[k+1..];
  }

  lemma ShutdownEnds(events: seq<Event>, k: nat, done: seq<Replies>)
    requires k < |events| && events[k].Shutdown? && TimersBeforeShutdown(events) == done + TimersBeforeShutdown(events[k..])
    ensures TimersBeforeShutdown(events) == done
  {
  }

  class LeaderElector {
    const nodeID: nat
    const ttl: Ttl
    var isLeader: bool
    var currentValue: Option<LockMetadata>
    var currentEpoch: int
    var leaderFence: Option<int>
    var leaderCancelled: bool
    var transitions: nat

    ghost function View(): Elector
      reads this
    {
      Elector(isLeader, currentValue, currentEpoch, leaderFence, leaderCancelled, transitions)
    }

    constructor (nodeID: nat, ttl: Ttl)
      ensures View() == NEW_ELECTOR && this.nodeID == nodeID && this.ttl == ttl
    {
      this.nodeID, this.ttl := nodeID, ttl;
      isLeader, currentValue, currentEpoch := false, None, 0;
      leaderFence, leaderCancelled, transitions := None, false, 0;
    }

    method Acquire(r: Replies) returns (acquired: Reply<bool>)
      modifies this
      ensures (View(), acquired) == AcquireStep(nodeID, ttl, old(View()), r)
    {
      if r.epoch.Error? {
        return Error;
      }
      currentEpoch := r.epoch.value;
      var value := LockMetadata(nodeID, currentEpoch, r.localNow, r.localNow + ttl);
      acquired := r.lease;
      if acquired.Ok? && acquired.value {
        currentValue := Some(value);
      }
    }

    method Renew(r: Replies) returns (renewed: Reply<bool>)
      ensures renewed == RenewStep(View(), r)
    {
      if currentValue == None {
        return Ok(false);
      }
      renewed := r.renewal;
    }

    /** Runs the release script with the kept value, if there is one and the call reaches the store;
        sent is that value. The elector itself does not change. */
    method Release(store: RedisLocks<LockMetadata>, call: ReleaseCall) returns (sent: Option<LockMetadata>)
      modifies store
      ensures sent == currentValue
      ensures store.At(LOCK_KEY) ==
              if sent.Some? && call.reached then CompareAndDelete(old(store.At(LOCK_KEY)), sent.value, call.now) else old(store.At(LOCK_KEY))
      ensures SameElsewhere(old(store.keys), store.keys, LOCK_KEY)
    {
      sent := currentValue;
      if sent.Some? && call.reached {
        store.ReleaseLock(LOCK_KEY, sent.value, call.now);
      }
    }

    method BecomeLeader()
      modifies this
      ensures View() == LeaderElection.BecomeLeader(old(View()))
    {
      isLeader := true;
      transitions := transitions + 1;
      leaderFence, leaderCancelled := Some(currentEpoch), false;
    }

    method StepDown()
      modifies this
      ensures View() == LeaderElection.StepDown(old(View()))
    {
      if !isLeader {
        return;
      }
      isLeader := false;
      transitions := transitions + 1;
      leaderCancelled := true;
    }

    /** One timer event of the loop, with its backoff. */
    method OnTimer(r: Replies, interval: int, renewFailures: int, ghost st: LoopState) returns (next: int, failures: int)
      requires View() == st.elector && interval == st.interval && renewFailures == st.renewFailures
      modifies this
      ensures var end := LoopTick(nodeID, ttl, st, r);
              View() == end.elector && next == end.interval && failures == end.renewFailures
    {
      var minInterval, maxInterval := ttl / 3, 10 * ttl;
      var failed: bool;
      failures := renewFailures;
      if isLeader {
        var renewed := Renew(r);
        failed := renewed.Error?;
        if renewed.Ok? {
          failures := 0;
          if !renewed.value {
            StepDown();
          }
        } else {
          failures := failures + 1;
          if failures >= MAX_RENEW_FAILURES {
            StepDown();
            failures := 0;
          }
        }
      } else {
        var acquired := Acquire(r);
        failed := acquired.Error?;
        if acquired.Ok? && acquired.value {
          BecomeLeader();
          failures := 0;
        }
      }
      if failed {
        next := interval * 2;
        if next > maxInterval {
          next := maxInterval;
        }
      } else {
        next := minInterval;
      }
    }

    /** The select loop, driven by a list of events. On shutdown a leader sends its release and
        keeps its flag; store is the store as the release finds it. */
    method Loop(events: seq<Event>, store: RedisLocks<LockMetadata>, call: ReleaseCall, ghost start: int)
      returns (interval: int, renewFailures: int, released: Option<LockMetadata>, ghost end: LoopState)
      modifies this, store
      ensures end == LoopRun(nodeID, ttl, LoopStart(ttl, old(View()), start), TimersBeforeShutdown(events))
      ensures View() == end.elector && interval == end.interval && renewFailures == end.renewFailures
      ensures released == if Shutdown in events && isLeader then currentValue else None
      ensures store.At(LOCK_KEY) ==
              if released.Some? && call.reached then CompareAndDelete(old(store.At(LOCK_KEY)), released.value, call.now)
              else old(store.At(LOCK_KEY))
    {
      interval, renewFailures, released := ttl / 3, 0, None;
      ghost var first := LoopStart(ttl, View(), start);
      ghost var done := [];
      end := first;
      var k := 0;
      while k < |events|
        invariant 0 <= k <= |events|
        invariant released == None && Shutdown !in events[..k] && store.keys == old(store.keys)
        invariant end == LoopRun(nodeID, ttl, first, done)
        invariant View() == end.elector && interval == end.interval && renewFailures == end.renewFailures
        invariant TimersBeforeShutdown(events) == done + TimersBeforeShutdown(events[k..])
      {
        if events[k] == Shutdown {
          ShutdownEnds(events, k, done);
          if isLeader {
            released := Release(store, call);
          }
          return;
        }
        var r := events[k].replies;
        TimerFollows(events, k, done);
        LoopRunNext(nodeID, ttl, first, done, r);
        interval, renewFailures := OnTimer(r, interval, renewFailures, end);
        end := LoopTick(nodeID, ttl, end, r);
        done := done + [r];
        k := k + 1;
      }
      assert events[k..] == [] && done + [] == done;
    }
  }

  // ---------- Timing ----------

  /** With u = ttl/3, a leader that saw f renewal errors since its last confirmation is
      0, u or 3u past it and waits u, 2u or 4u. */
  predicate OnSchedule(ttl: Ttl, st: LoopState) {
    var u := ttl / 3;
    && u <= st.interval <= 10 * ttl
    && 0 <= st.renewFailures < MAX_RENEW_FAILURES
    && (st.elector.isLeader ==>
          match st.renewFailures
          case 0 => st.now == st.lastConfirmed && st.interval == u
          case 1 => st.now == st.lastConfirmed + u && st.interval == 2 * u
          case _ => st.now == st.lastConfirmed + 3 * u && st.interval == 4 * u)
  }

  lemma {:induction false} RunStaysOnSchedule(nodeID: nat, ttl: Ttl, st: LoopState, rs: seq<Replies>)
    requires OnSchedule(ttl, st)
    ensures OnSchedule(ttl, LoopRun(nodeID, ttl, st, rs))
  {
    if rs != [] {
      RunStaysOnSchedule(nodeID, ttl, st, rs[..|rs|-1]);
    }
  }

  /** In every run of the loop, up to and including the next timer event, an elector whose flag is
      set last had its lease confirmed at most 7*(ttl/3) ago, and the retry interval stays
      within [ttl/3, 10*ttl]. */
  lemma LeaderConfirmedRecently(nodeID: nat, ttl: Ttl, start: int, rs: seq<Replies>, t: int)
    requires var st := LoopRun(nodeID, ttl, LoopStart(ttl, NEW_ELECTOR, start), rs); st.now <= t <= st.now + st.interval
    ensures var st := LoopRun(nodeID, ttl, LoopStart(ttl, NEW_ELECTOR, start), rs);
            && ttl / 3 <= st.interval <= 10 * ttl
            && (st.elector.isLeader ==> t - st.lastConfirmed <= 7 * (ttl / 3))
  {
    RunStaysOnSchedule(nodeID, ttl, LoopStart(ttl, NEW_ELECTOR, start), rs);
  }

  /** The bound is met: three renewal errors in a row fall 1, 3 and 7 times ttl/3 after the last
      confirmation, and the third one ends the leadership and cancels the fenced context. */
  lemma ThreeErrorsStepDown(nodeID: nat, ttl: Ttl, start: int, rs: seq<Replies>, r1: Replies, r2: Replies, r3: Replies)
    requires r1.renewal == Error && r2.renewal == Error && r3.renewal == Error
    requires var st := LoopRun(nodeID, ttl, LoopStart(ttl, NEW_ELECTOR, start), rs);
             st.elector.isLeader && st.renewFailures == 0 && st.elector.currentValue.Some?
    ensures var first := LoopStart(ttl, NEW_ELECTOR, start);
            var st := LoopRun(nodeID, ttl, first, rs);
            var a := LoopRun(nodeID, ttl, first, rs + [r1]);
            var b := LoopRun(nodeID, ttl, first, rs + [r1, r2]);
            var c := LoopRun(nodeID, ttl, first, rs + [r1, r2, r3]);
            && a.now == st.lastConfirmed + ttl / 3 && a.elector == st.elector
            && b.now == st.lastConfirmed + 3 * (ttl / 3) && b.elector == st.elector
            && c.now == st.lastConfirmed + 7 * (ttl / 3) && !c.elector.isLeader && c.elector.fenceCancelled
  {
    var first := LoopStart(ttl, NEW_ELECTOR, start);
    RunStaysOnSchedule(nodeID, ttl, first, rs);
    var x, y, z := rs + [r1], rs + [r1, r2], rs + [r1, r2, r3];
    assert x[..|x|-1] == rs && y[..|y|-1] == x && z[..|z|-1] == y;
    var st := LoopRun(nodeID, ttl, first, rs);
    var a := LoopRun(nodeID, ttl, first, x);
    assert a == LoopTick(nodeID, ttl, st, r1);
    var b := LoopRun(nodeID, ttl, first, y);
    assert b == LoopTick(nodeID, ttl, a, r2);
    assert LoopRun(nodeID, ttl, first, z) == LoopTick(nodeID, ttl, b, r3);
  }

  // ---------- When the timer fires ----------

  /** Some remote call of the timer event answers with an error: a leader's renewal, or a follower's epoch
      bump or lease request. */
  predicate Errs(el: Elector, r: Replies) {
    if el.isLeader then el.currentValue.Some? && r.renewal == Error
    else r.epoch == Error || r.lease == Error
  }

  /** How many of the latest events erred one after another. */
  function ErrorsInARow(nodeID: nat, ttl: Ttl, first: LoopState, rs: seq<Replies>): nat {
    if rs == [] then 0
    else
      var earlier := rs[..|rs|-1];
      if Errs(LoopRun(nodeID, ttl, first, earlier).elector, rs[|rs|-1])
      then ErrorsInARow(nodeID, ttl, first, earlier) + 1 else 0
  }

  function TwoTo(n: nat): nat {
    if n == 0 then 1 else 2 * TwoTo(n - 1)
  }

  function Min(x: int, y: int): int {
    if x < y then x else y
  }

  lemma DoublingIsCapped(u: nat, f: nat, cap: int)
    requires 0 <= cap
    ensures Min(2 * Min(TwoTo(f) * u, cap), cap) == Min(TwoTo(f + 1) * u, cap)
  {
    assert TwoTo(f + 1) * u == 2 * (TwoTo(f) * u);
  }

  /** One event doubles the wait up to its cap if a call errs, and else resets it. */
  lemma WaitAfterEvent(nodeID: nat, ttl: Ttl, st: LoopState, r: Replies)
    ensures LoopTick(nodeID, ttl, st, r).interval == if Errs(st.elector, r) then Min(2 * st.interval, 10 * ttl) else ttl / 3
  {
  }

  lemma {:induction false} WaitIsBackoff(nodeID: nat, ttl: Ttl, start: int, el: Elector, rs: seq<Replies>)
    ensures var first := LoopStart(ttl, el, start);
            LoopRun(nodeID, ttl, first, rs).interval == Min(TwoTo(ErrorsInARow(nodeID, ttl, first, rs)) * (ttl / 3), 10 * ttl)
  {
    if rs != [] {
      var first, earlier := LoopStart(ttl, el, start), rs[..|rs|-1];
      WaitIsBackoff(nodeID, ttl, start, el, earlier);
      WaitAfterEvent(nodeID, ttl, LoopRun(nodeID, ttl, first, earlier), rs[|rs|-1]);
      DoublingIsCapped(ttl / 3, ErrorsInARow(nodeID, ttl, first, earlier), 10 * ttl);
    }
  }

  /** In every run, leader or follower: after f erring events in a row the next event comes min(2^f*(ttl/3),
      10*ttl) later; so after an event in which no call erred it comes exactly ttl/3 later, whatever was
      answered. */
  lemma NextEventAfter(nodeID: nat, ttl: Ttl, start: int, el: Elector, rs: seq<Replies>, r: Replies)
    ensures var first := LoopStart(ttl, el, start);
            LoopRun(nodeID, ttl, first, rs + [r]).now
              == LoopRun(nodeID, ttl, first, rs).now + Min(TwoTo(ErrorsInARow(nodeID, ttl, first, rs)) * (ttl / 3), 10 * ttl)
    ensures var first := LoopStart(ttl, el, start);
            ErrorsInARow(nodeID, ttl, first, rs) == 0 ==>
              LoopRun(nodeID, ttl, first, rs + [r]).now == LoopRun(nodeID, ttl, first, rs).now + ttl / 3
  {
    WaitIsBackoff(nodeID, ttl, start, el, rs);
    LoopRunNext(nodeID, ttl, LoopStart(ttl, el, start), rs, r);
  }

  /** Every call of every event answers. */
  predicate AllAnswer(rs: seq<Replies>) {
    forall i :: 0 <= i < |rs| ==> rs[i].epoch.Ok? && rs[i].lease.Ok? && rs[i].renewal.Ok?
  }

  /** While all calls answer, the k-th event is at start + k*(ttl/3). */
  lemma {:induction false} AnsweredEventsTick(nodeID: nat, ttl: Ttl, start: int, el: Elector, rs: seq<Replies>)
    requires AllAnswer(rs)
    ensures LoopRun(nodeID, ttl, LoopStart(ttl, el, start), rs).now == start + |rs| * (ttl / 3)
    ensures ErrorsInARow(nodeID, ttl, LoopStart(ttl, el, start), rs) == 0
  {
    if rs != [] {
      var earlier := rs[..|rs|-1];
      AnsweredEventsTick(nodeID, ttl, start, el, earlier);
      assert earlier + [rs[|rs|-1]] == rs;
      NextEventAfter(nodeID, ttl, start, el, earlier, rs[|rs|-1]);
    }
  }

  /** A follower whose calls all answer asks for the lease within ttl/3 of any moment t, and leads from
      then on exactly if it is granted. */
  lemma FollowerAsksWithinAThird(nodeID: nat, ttl: Ttl, start: int, rs: seq<Replies>, r: Replies, t: int)
    requires AllAnswer(rs + [r])
    requires var st := LoopRun(nodeID, ttl, LoopStart(ttl, NEW_ELECTOR, start), rs); !st.elector.isLeader && st.now <= t
    requires t < LoopRun(nodeID, ttl, LoopStart(ttl, NEW_ELECTOR, start), rs + [r]).now
    ensures var next := LoopRun(nodeID, ttl, LoopStart(ttl, NEW_ELECTOR, start), rs + [r]);
            && next.now == start + (|rs| + 1) * (ttl / 3) <= t + ttl / 3
            && (next.elector.isLeader <==> r.lease == Ok(true))
            && (next.elector.isLeader ==>
                  next.elector.currentValue == Some(LockMetadata(nodeID, r.epoch.value, r.localNow, r.localNow + ttl)))
  {
    assert rs == (rs + [r])[..|rs|];
    assert AllAnswer(rs);
    AnsweredEventsTick(nodeID, ttl, start, NEW_ELECTOR, rs);
    AnsweredEventsTick(nodeID, ttl, start, NEW_ELECTOR, rs + [r]);
    LoopRunNext(nodeID, ttl, LoopStart(ttl, NEW_ELECTOR, start), rs, r);
  }

  /** The transition counter is odd exactly while the elector leads. */
  lemma {:induction false} TransitionsAlternate(nodeID: nat, ttl: Ttl, start: int, rs: seq<Replies>)
    ensures var el := LoopRun(nodeID, ttl, LoopStart(ttl, NEW_ELECTOR, start), rs).elector; el.isLeader <==> el.transitions % 2 == 1
  {
    if rs != [] {
      TransitionsAlternate(nodeID, ttl, start, rs[..|rs|-1]);
      EventAlternates(nodeID, ttl, LoopRun(nodeID, ttl, LoopStart(ttl, NEW_ELECTOR, start), rs[..|rs|-1]), rs[|rs|-1]);
    }
  }

  /** One event counts one transition if it changes the flag, and else none. */
  lemma EventAlternates(nodeID: nat, ttl: Ttl, st: LoopState, r: Replies)
    ensures var el := LoopTick(nodeID, ttl, st, r).elector;
            el.transitions == st.elector.transitions + if el.isLeader != st.elector.isLeader then 1 else 0
  {
  }

  // ---------- How long two flags overlap ----------

  /** Two flags overlap for at most four thirds of a lifetime: once another elector's grant follows, at
      step g, the last confirmation that the elector's loop has seen, at step m, the flag is cleared by
      then, unless the lease was deleted or the store flushed in between. */
  lemma FlagsOverlapBriefly(states: seq<State>, steps: seq<Step>, m: nat, g: nat, o: Observed,
                            nodeID: nat, start: int, rs: seq<Replies>, t: int)
    requires IsRun(states, steps) && m < |steps| && g < |steps|
    requires Confirms(states[m], steps[m], o)
    requires Grants(states[g], steps[g]) && o.grant < |states[g].grants|
    requires forall i :: m < i < g ==> !EndsEarly(steps[i], o)
    requires var st := LoopRun(nodeID, states[m].ttl, LoopStart(states[m].ttl, NEW_ELECTOR, start), rs);
             st.elector.isLeader && st.lastConfirmed == states[m].now && st.now <= t <= st.now + st.interval
    ensures t - states[g].now <= 4 * (states[m].ttl / 3)
  {
    SuccessorWaits(states, steps, m, g, o);
    LeaderConfirmedRecently(nodeID, states[m].ttl, start, rs, t);
  }

  // ---------- The loop follows the protocol ----------

  /** A follower's timer event whose calls all answer has the effect, on its elector, of the
      protocol steps bump, prepare, SET NX, record and elect. */
  lemma AcquireFollowsProtocol(s: State, e: nat, st: LoopState, localNow: int)
    requires e in s.nodes && s.nodes[e].phase == Idle && s.nodes[e].elector == st.elector && !st.elector.isLeader
    ensures var granted := Live(s.lease, s.now).None?;
            var r := Replies(Ok(s.durable + 1), Ok(granted), Error, localNow);
            var asked := Apply(Apply(s, Bump(e)), PrepareLease(e, localNow));
            var recorded := Apply(Apply(asked, LeaseReply(e)), RecordValue(e));
            var end := if granted then Apply(recorded, Elect(e)) else recorded;
            && end.nodes[e].phase == Idle
            && end.nodes[e].elector == LoopTick(e, s.ttl, st, r).elector
  {
    var granted := Live(s.lease, s.now).None?;
    var asked := Apply(Apply(s, Bump(e)), PrepareLease(e, localNow));
    var answered := Apply(asked, LeaseReply(e));
    assert answered.nodes[e].phase.LeaseAnswered? && answered.nodes[e].phase.acquired == granted;
    var recorded := Apply(answered, RecordValue(e));
    assert granted ==> recorded.nodes[e].phase == ValueRecorded;
  }

  /** Failing calls leave the elector as the protocol's error steps do: an epoch bump whose reply is
      lost, a lease request whose reply is lost, and a renewal error, the third of which in a row
      ends the leadership. */
  lemma FailuresFollowProtocol(s: State, e: nat, st: LoopState, localNow: int)
    requires e in s.nodes && s.nodes[e].phase == Idle && s.nodes[e].elector == st.elector
    ensures !st.elector.isLeader ==>
              && Apply(s, LateBump).nodes[e].elector == LoopTick(e, s.ttl, st, Replies(Error, Error, Error, localNow)).elector
              && var end := Apply(Apply(Apply(s, Bump(e)), PrepareLease(e, localNow)), LeaseError(e));
                 end.nodes[e].phase == Idle
                 && end.nodes[e].elector == LoopTick(e, s.ttl, st, Replies(Ok(s.durable + 1), Error, Error, localNow)).elector
    ensures st.elector.isLeader ==>
              var r := Replies(Error, Error, Error, localNow);
              var asked := Apply(s, RenewRequest(e));
              var end := if st.elector.currentValue.None? then asked
                         else Apply(asked, RenewError(e, st.renewFailures + 1 >= MAX_RENEW_FAILURES));
              end.nodes[e].phase == Idle && end.nodes[e].elector == LoopTick(e, s.ttl, st, r).elector
  {
    if st.elector.isLeader {
      var asked := Apply(s, RenewRequest(e));
      assert st.elector.currentValue.Some? ==> asked.nodes[e].phase.RenewRequested?;
    } else {
      var asked := Apply(Apply(s, Bump(e)), PrepareLease(e, localNow));
      assert asked.nodes[e].phase.LeaseRequested?;
    }
  }

  /** A leader's timer event that gets an answer has the effect of the protocol's renewal steps. */
  lemma RenewFollowsProtocol(s: State, e: nat, st: LoopState, localNow: int)
    requires e in s.nodes && s.nodes[e].phase == Idle && s.nodes[e].elector == st.elector && st.elector.isLeader
    requires st.elector.currentValue.Some?
    ensures var renewed := Live(s.lease, s.now) == st.elector.currentValue;
            var r := Replies(Error, Error, Ok(renewed), localNow);
            var end := Apply(Apply(s, RenewRequest(e)), RenewReply(e));
            && end.nodes[e].phase == Idle
            && end.nodes[e].elector == LoopTick(e, s.ttl, st, r).elector
            && (renewed ==> end.lease == Some(Entry(st.elector.currentValue.value, s.now + s.ttl)))
  {
    var asked := Apply(s, RenewRequest(e));
    assert asked.nodes[e].phase.RenewRequested?;
  }
}
