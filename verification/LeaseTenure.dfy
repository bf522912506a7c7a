/**
 How long a confirmed lease lasts in the lease protocol, how long a successor waits for it, and what a
 janitor can end early.
 */
module LeaseTenure {
  import opened Wrappers
  import opened LockStore
  import opened LeaderElection
  import opened ElectionSafety

  /** The stored lease is that of the newest grant; no janitor has read an epoch above the durable one. */
  ghost predicate TenureInv(s: State) {
    && (s.lease.Some? ==> s.leaseGrant + 1 == |s.grants|)
    && (forall j :: j in s.janitors ==> s.janitors[j] <= s.durable)
  }

  lemma StepKeepsTenure(s: State, step: Step)
    requires Enabled(s, step) && TenureInv(s)
    ensures TenureInv(Apply(s, step))
  {
  }

  lemma {:induction false} RunKeepsTenure(states: seq<State>, steps: seq<Step>, n: nat)
    requires IsRun(states, steps) && n < |states|
    ensures TenureInv(states[n])
  {
    if n > 0 {
      RunKeepsTenure(states, steps, n - 1);
      StepKeepsTenure(states[n-1], steps[n-1]);
    }
  }

  /** Grants are never taken back, time never goes back, and the lifetime of leases stays. */
  predicate Later(s: State, s': State) {
    |s.grants| <= |s'.grants| && s.now <= s'.now && s.ttl == s'.ttl
  }

  lemma StepGoesOn(s: State, step: Step)
    requires Enabled(s, step)
    ensures Later(s, Apply(s, step))
  {
  }

  lemma {:induction false} RunGoesOn(states: seq<State>, steps: seq<Step>, m: nat, n: nat)
    requires IsRun(states, steps) && m <= n < |states|
    ensures Later(states[m], states[n])
  {
    if m < n {
      RunGoesOn(states, steps, m, n - 1);
      StepGoesOn(states[n-1], steps[n-1]);
    }
  }

  // ---------- How long a lease lasts ----------

  /** The step tells an elector that the grant o has been made or extended just now. */
  predicate Confirms(s: State, step: Step, o: Observed)
    requires Enabled(s, step)
  {
    match step
    case LeaseReply(e) => Live(s.lease, s.now).None? && o == Observed(s.nodes[e].phase.value, |s.grants|)
    case RenewReply(e) => o == s.nodes[e].phase.seen && Live(s.lease, s.now) == Some(o.value)
    case _ => false
  }

  /** The grant o is stored, at least until the given time. */
  predicate StoredUntil(s: State, o: Observed, time: int) {
    s.lease.Some? && s.lease.value.value == o.value && s.leaseGrant == o.grant && time <= s.lease.value.expiresAt
  }

  /** Only the newest grant is ever confirmed. */
  lemma ConfirmedIsNewest(states: seq<State>, steps: seq<Step>, m: nat, o: Observed)
    requires IsRun(states, steps) && m < |steps| && Confirms(states[m], steps[m], o)
    ensures o.grant + 1 == |states[m+1].grants|
    ensures StoredUntil(states[m+1], o, states[m].now + states[m].ttl)
  {
    RunKeepsInv(states, steps, m);
    RunKeepsTenure(states, steps, m);
    var s := states[m];
    if steps[m].RenewReply? {
      var e := steps[m].e;
      assert NodeInv(s.durable, s.attempts, s.grants, s.late, e, s.nodes[e]);
      assert LogMatches(s.grants, o) && LogMatches(s.grants, Observed(s.lease.value.value, s.leaseGrant));
    }
  }

  /** A deletion of this very grant, by a release or a janitor, or a flushed store. */
  predicate EndsEarly(step: Step, o: Observed) {
    step == LateDelete(o) || step.FlushRedis?
  }

  /** A deletion that was meant for another grant is without effect. */
  lemma OtherDeletionMisses(s: State, o: Observed, other: Observed)
    requires Inv(s) && other in s.deletes && other != o && s.lease.Some?
    requires s.lease.value.value == o.value && s.leaseGrant == o.grant
    ensures Apply(s, LateDelete(other)).lease == s.lease
  {
    assert LogMatches(s.grants, other) && LogMatches(s.grants, o);
  }

  lemma StepKeepsStored(s: State, step: Step, o: Observed, time: int)
    requires Inv(s) && Enabled(s, step) && !EndsEarly(step, o) && s.now < time
    requires StoredUntil(s, o, time) && time <= s.now + s.ttl
    ensures StoredUntil(Apply(s, step), o, time)
  {
    if step.LateDelete? {
      OtherDeletionMisses(s, o, step.o);
    } else {
      OtherStepKeepsStored(s, step, o, time);
    }
  }

  lemma OtherStepKeepsStored(s: State, step: Step, o: Observed, time: int)
    requires Enabled(s, step) && !step.LateDelete? && !step.FlushRedis? && s.now < time
    requires StoredUntil(s, o, time) && time <= s.now + s.ttl
    ensures StoredUntil(Apply(s, step), o, time)
  {
  }

  /** A confirmed lease stays stored for its whole lifetime unless it is deleted or the store flushed. */
  lemma {:induction false} LeaseLasts(states: seq<State>, steps: seq<Step>, m: nat, n: nat, o: Observed)
    requires IsRun(states, steps) && m < n < |states| && Confirms(states[m], steps[m], o)
    requires forall i :: m < i < n ==> !EndsEarly(steps[i], o)
    requires states[n-1].now < states[m].now + states[m].ttl
    ensures StoredUntil(states[n], o, states[m].now + states[m].ttl)
  {
    if n == m + 1 {
      ConfirmedIsNewest(states, steps, m, o);
    } else {
      RunGoesOn(states, steps, n - 2, n - 1);
      RunGoesOn(states, steps, m, n - 1);
      LeaseLasts(states, steps, m, n - 1, o);
      RunKeepsInv(states, steps, n - 1);
      StepKeepsStored(states[n-1], steps[n-1], o, states[m].now + states[m].ttl);
    }
  }

  /** A leader whose lease was confirmed less than its lifetime ago holds the live lease, unless it was
      deleted or the store flushed since. */
  lemma ConfirmedLeaderHolds(states: seq<State>, steps: seq<Step>, m: nat, n: nat, o: Observed, e: nat)
    requires IsRun(states, steps) && m < n < |states| && Confirms(states[m], steps[m], o)
    requires forall i :: m < i < n ==> !EndsEarly(steps[i], o)
    requires Leads(states[n], e) && states[n].nodes[e].held == o.grant
    requires states[n].now < states[m].now + states[m].ttl
    ensures Holds(states[n], e)
  {
    RunGoesOn(states, steps, n - 1, n);
    LeaseLasts(states, steps, m, n, o);
    RunKeepsInv(states, steps, n);
    var s := states[n];
    assert NodeInv(s.durable, s.attempts, s.grants, s.late, e, s.nodes[e]);
    assert LogMatches(s.grants, Observed(s.lease.value.value, s.leaseGrant));
  }

  /** The step makes a grant, whether or not anybody waits for the reply. */
  predicate Grants(s: State, step: Step)
    requires Enabled(s, step)
  {
    |s.grants| < |Apply(s, step).grants|
  }

  lemma GrantNeedsFreeLease(s: State, step: Step)
    requires Enabled(s, step) && Grants(s, step)
    ensures Live(s.lease, s.now).None? && |Apply(s, step).grants| == |s.grants| + 1
  {
  }

  /** A later grant comes a whole lifetime after the last confirmation of an earlier one, unless that one
      was deleted or the store flushed; and the earlier one is never confirmed again. */
  lemma SuccessorWaits(states: seq<State>, steps: seq<Step>, m: nat, g: nat, o: Observed)
    requires IsRun(states, steps) && m < |steps| && g < |steps|
    requires Confirms(states[m], steps[m], o)
    requires Grants(states[g], steps[g]) && o.grant < |states[g].grants|
    requires forall i :: m < i < g ==> !EndsEarly(steps[i], o)
    ensures m < g && states[m].now + states[m].ttl <= states[g].now
  {
    ConfirmedIsNewest(states, steps, m, o);
    GrantNeedsFreeLease(states[g], steps[g]);
    if g <= m {
      RunGoesOn(states, steps, g + 1, m + 1);
      assert false;
    }
    if states[g].now < states[m].now + states[m].ttl {
      RunGoesOn(states, steps, g - 1, g);
      LeaseLasts(states, steps, m, g, o);
      assert false;
    }
  }

  // ---------- What a janitor ends ----------

  /** Every value is stamped with its preparation and, one lifetime later, its expiry. */
  ghost predicate Stamped(s: State) {
    forall v :: v in s.attempts ==> v.expiresAt == v.createdAt + s.ttl
  }

  lemma StepKeepsStamps(s: State, step: Step)
    requires Enabled(s, step) && Stamped(s)
    ensures Stamped(Apply(s, step))
  {
    assert step.PrepareLease? || Apply(s, step).attempts == s.attempts;
  }

  lemma {:induction false} RunKeepsStamps(states: seq<State>, steps: seq<Step>, n: nat)
    requires IsRun(states, steps) && n < |states|
    ensures Stamped(states[n])
  {
    if n > 0 {
      RunKeepsStamps(states, steps, n - 1);
      StepKeepsStamps(states[n-1], steps[n-1]);
    }
  }

  /** The read of a janitor that condemns a leader's live lease: exactly if the epoch it read earlier
      exceeds the lease's, or the lease is five seconds past its stamp. Executed, the deletion takes the
      lease from a leader whose flag stays. */
  lemma JanitorEvictsExactly(states: seq<State>, steps: seq<Step>, n: nat, e: nat, j: nat, localNow: int)
    requires IsRun(states, steps) && n < |states| && Leads(states[n], e) && Holds(states[n], e) && j in states[n].janitors
    requires forall o :: o in states[n].deletes ==> o.grant != states[n].nodes[e].held
    ensures var s := states[n];
            var o := Observed(s.nodes[e].elector.currentValue.value, s.nodes[e].held);
            var read := Apply(s, JanitorRead(j, localNow));
            && (Enabled(read, LateDelete(o)) <==> s.janitors[j] > o.value.epoch || localNow > o.value.expiresAt + 5000)
            && (Enabled(read, LateDelete(o)) ==>
                  var end := Apply(read, LateDelete(o));
                  Leads(end, e) && !Holds(end, e) && Live(end.lease, end.now).None?)
  {
    RunKeepsInv(states, steps, n);
    var s := states[n];
    assert NodeInv(s.durable, s.attempts, s.grants, s.late, e, s.nodes[e]);
    assert LogMatches(s.grants, Observed(s.lease.value.value, s.leaseGrant));
    assert s.leaseGrant == s.nodes[e].held;
  }

  /** A live lease of the durable epoch is safe, until a lifetime and five seconds after its preparation, from every janitor, however
      long ago it read the epoch. */
  lemma NewestLeaseIsSafe(states: seq<State>, steps: seq<Step>, n: nat, j: nat, localNow: int)
    requires IsRun(states, steps) && n < |states| && j in states[n].janitors
    requires Live(states[n].lease, states[n].now).Some?
    requires states[n].lease.value.value.epoch == states[n].durable
    requires localNow <= states[n].lease.value.value.createdAt + states[n].ttl + 5000
    ensures Apply(states[n], JanitorRead(j, localNow)) == states[n]
  {
    RunKeepsTenure(states, steps, n);
    RunKeepsStamps(states, steps, n);
    RunKeepsInv(states, steps, n);
    var v := states[n].lease.value.value;
    assert v in states[n].grants && v in states[n].attempts;
  }

  lemma LeaseEpochIsDurable(states: seq<State>, steps: seq<Step>, n: nat)
    requires IsRun(states, steps) && n < |states| && states[n].lease.Some?
    ensures states[n].lease.value.value.epoch <= states[n].durable
  {
    RunKeepsInv(states, steps, n);
    var s := states[n];
    assert s.lease.value.value in s.grants && s.lease.value.value in s.attempts;
  }

  /** One attempt of a follower is enough for a janitor to evict a healthy leader. */
  lemma JanitorEvictsLiveLeader() returns (states: seq<State>, steps: seq<Step>)
    ensures IsRun(states, steps) && |steps| > 0 && steps[|steps|-1].LateDelete?
    ensures Leads(states[|steps|-1], 0) && Holds(states[|steps|-1], 0)
    ensures Leads(states[|steps|], 0) && Live(states[|steps|].lease, states[|steps|].now).None?
  {
    var condemned: Observed;
    states, steps, condemned := CondemnsLiveLeader();
    states, steps := Continues(states, steps, LateDelete(condemned));
  }

  lemma CondemnsLiveLeader() returns (states: seq<State>, steps: seq<Step>, o: Observed)
    ensures IsRun(states, steps)
    ensures var read := states[|steps|];
            && Enabled(read, LateDelete(o)) && Leads(read, 0) && Holds(read, 0)
            && Leads(Apply(read, LateDelete(o)), 0) && Live(Apply(read, LateDelete(o)).lease, read.now).None?
  {
    var idle := Node(NEW_ELECTOR, Idle, 0);
    var s0 := State(3000, 0, 0, None, 0, [], [], map[0 := idle, 1 := idle], {}, {}, {}, map[]);
    states, steps := Acquires(s0, 0, [s0], []);
    LeaseEpochIsDurable(states, steps, |steps|);
    EvictionSteps(states[|steps|]);
    o := Observed(states[|steps|].lease.value.value, states[|steps|].leaseGrant);
    states, steps := Continues(states, steps, Bump(1));
    states, steps := Continues(states, steps, JanitorEpoch(0));
    states, steps := Continues(states, steps, JanitorRead(0, 0));
  }

  /** The follower 1 bumps the epoch, the janitor reads it and then the lease of the leader 0. */
  lemma EvictionSteps(s: State)
    requires Leads(s, 0) && Holds(s, 0) && Enabled(s, Bump(1)) && s.lease.value.value.epoch <= s.durable
    ensures Enabled(Apply(s, Bump(1)), JanitorEpoch(0))
    ensures Enabled(Apply(Apply(s, Bump(1)), JanitorEpoch(0)), JanitorRead(0, 0))
    ensures var read := Apply(Apply(Apply(s, Bump(1)), JanitorEpoch(0)), JanitorRead(0, 0));
            var o := Observed(s.lease.value.value, s.leaseGrant);
            && Enabled(read, LateDelete(o)) && Leads(read, 0) && Holds(read, 0)
            && Leads(Apply(read, LateDelete(o)), 0) && Live(Apply(read, LateDelete(o)).lease, s.now).None? && read.now == s.now
  {
    var asked := Apply(Apply(s, Bump(1)), JanitorEpoch(0));
    assert asked.lease == s.lease && asked.now == s.now && asked.janitors[0] == s.durable + 1;
    assert ShouldEvict(s.lease.value.value, asked.janitors[0], 0);
  }
}
