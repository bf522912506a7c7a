/** What every run of the lease protocol guarantees, and what it does not. */
module ElectionSafety {
  import opened Wrappers
  import opened LockStore
  import opened LeaderElection

  /** The value this elector believes to hold is the live lease. */
  predicate Holds(s: State, e: nat) {
    e in s.nodes && s.nodes[e].elector.currentValue.Some? && Live(s.lease, s.now) == s.nodes[e].elector.currentValue
  }

  predicate Leads(s: State, e: nat) {
    e in s.nodes && s.nodes[e].elector.isLeader
  }

  /** All acquire attempts carry distinct epochs, none above the durable one; so two electors
      never keep the same lease value or the same epoch of a granted lease. */
  lemma DistinctEpochs(states: seq<State>, steps: seq<Step>, n: nat)
    requires IsRun(states, steps) && n < |states|
    ensures var s := states[n];
            && (forall i :: 0 <= i < |s.attempts| ==> 1 <= s.attempts[i].epoch <= s.durable)
            && (forall i, j :: 0 <= i < j < |s.attempts| ==> s.attempts[i].epoch != s.attempts[j].epoch)
            && (forall e, f :: e in s.nodes && f in s.nodes && e != f
                  && s.nodes[e].elector.currentValue.Some? && s.nodes[f].elector.currentValue.Some?
                  ==> s.nodes[e].elector.currentValue.value.epoch != s.nodes[f].elector.currentValue.value.epoch)
  {
    RunKeepsInv(states, steps, n);
    var s := states[n];
    forall e, f | e in s.nodes && f in s.nodes && e != f
      && s.nodes[e].elector.currentValue.Some? && s.nodes[f].elector.currentValue.Some?
      ensures s.nodes[e].elector.currentValue.value.epoch != s.nodes[f].elector.currentValue.value.epoch
    {
      HeldValuesDiffer(s, e, f);
    }
  }

  lemma HeldValuesDiffer(s: State, e: nat, f: nat)
    requires Inv(s) && e in s.nodes && f in s.nodes && e != f
    requires s.nodes[e].elector.currentValue.Some? && s.nodes[f].elector.currentValue.Some?
    ensures s.nodes[e].elector.currentValue.value.epoch != s.nodes[f].elector.currentValue.value.epoch
  {
    var n, m := s.nodes[e], s.nodes[f];
    assert NodeInv(s.durable, s.attempts, s.grants, s.late, e, n);
    assert NodeInv(s.durable, s.attempts, s.grants, s.late, f, m);
    assert s.grants[n.held] in s.attempts && s.grants[m.held] in s.attempts;
  }

  /** At most one elector keeps the value of the live lease, whatever their flags say. */
  lemma AtMostOneHolder(states: seq<State>, steps: seq<Step>, n: nat, e: nat, f: nat)
    requires IsRun(states, steps) && n < |states|
    requires Holds(states[n], e) && Holds(states[n], f)
    ensures e == f
  {
    RunKeepsInv(states, steps, n);
    var s := states[n];
    assert NodeInv(s.durable, s.attempts, s.grants, s.late, e, s.nodes[e]);
    assert NodeInv(s.durable, s.attempts, s.grants, s.late, f, s.nodes[f]);
  }

  /** A leader's epoch, the epoch in its lease value and the epoch in its fenced context agree and
      the context is live; a former leader's context is cancelled; two leaders carry different
      fencing tokens. */
  lemma LeaderFence(states: seq<State>, steps: seq<Step>, n: nat, e: nat)
    requires IsRun(states, steps) && n < |states| && e in states[n].nodes
    ensures var el := states[n].nodes[e].elector;
            && (el.isLeader ==> FenceCoherent(el))
            && (!el.isLeader && el.fence.Some? ==> el.fenceCancelled)
    ensures forall f :: Leads(states[n], e) && Leads(states[n], f) && e != f
              ==> states[n].nodes[e].elector.fence != states[n].nodes[f].elector.fence
  {
    RunKeepsInv(states, steps, n);
    var s := states[n];
    assert NodeInv(s.durable, s.attempts, s.grants, s.late, e, s.nodes[e]);
    forall f | Leads(s, e) && Leads(s, f) && e != f
      ensures s.nodes[e].elector.fence != s.nodes[f].elector.fence
    {
      assert NodeInv(s.durable, s.attempts, s.grants, s.late, f, s.nodes[f]);
      HeldValuesDiffer(s, e, f);
    }
  }

  /** The earlier read that a compare-and-delete or compare-and-expire step acts on. */
  function Target(s: State, step: Step): Option<Observed>
    requires Enabled(s, step)
  {
    match step
    case RenewReply(e) => Some(s.nodes[e].phase.seen)
    case LateRenew(o) => Some(o)
    case LateDelete(o) => Some(o)
    case _ => None
  }

  /** A compare-and-delete or compare-and-expire touches the lease exactly when the stored lease
      still is the very grant that was read: a later grant on the same key is never affected. */
  lemma OnlyTheObservedGrant(states: seq<State>, steps: seq<Step>, n: nat)
    requires IsRun(states, steps) && n < |steps| && Target(states[n], steps[n]).Some?
    ensures var s, s', o := states[n], states[n+1], Target(states[n], steps[n]).value;
            && (Live(s.lease, s.now).Some? && s.leaseGrant != o.grant ==> s'.lease == s.lease)
            && (Live(s.lease, s.now).Some? && s.leaseGrant == o.grant ==>
                  (&& Live(s.lease, s.now) == Some(o.value)
                   && (if steps[n].LateDelete? then Live(s'.lease, s'.now) == None
                       else s'.lease == Some(Entry(o.value, s.now + s.ttl)))))
            && (Live(s.lease, s.now).None? ==> s'.lease == s.lease)
  {
    RunKeepsInv(states, steps, n);
    var s, o := states[n], Target(states[n], steps[n]).value;
    if steps[n].RenewReply? {
      var e := steps[n].e;
      assert NodeInv(s.durable, s.attempts, s.grants, s.late, e, s.nodes[e]);
    }
    assert LogMatches(s.grants, o);
    assert s.lease.Some? ==> LogMatches(s.grants, Observed(s.lease.value.value, s.leaseGrant));
  }

  /** No lease value is granted twice, so a grant is known by its value. */
  lemma GrantedOnce(states: seq<State>, steps: seq<Step>, n: nat, i: nat, j: nat)
    requires IsRun(states, steps) && n < |states|
    requires i < |states[n].grants| && j < |states[n].grants| && states[n].grants[i].epoch == states[n].grants[j].epoch
    ensures i == j
  {
    RunKeepsInv(states, steps, n);
    var s := states[n];
    assert s.grants[i] in s.attempts && s.grants[j] in s.attempts;
  }

  // ---------- When there can be two leaders ----------

  /** Where every leader's kept value is the live lease, as the store's ownership check tells it, there is
      at most one leader. */
  lemma HoldingLeadersAreOne(states: seq<State>, steps: seq<Step>, n: nat, e: nat, f: nat)
    requires IsRun(states, steps) && n < |states|
    requires forall g :: Leads(states[n], g) ==> Holds(states[n], g)
    requires Leads(states[n], e) && Leads(states[n], f)
    ensures e == f
  {
    AtMostOneHolder(states, steps, n, e, f);
  }

  /** An acquire attempt up to the point where becomeLeader would be called. */
  function Attempted(s: State, e: nat, localNow: int): State
    requires Enabled(s, Bump(e))
  {
    Apply(Apply(Apply(Apply(s, Bump(e)), PrepareLease(e, localNow)), LeaseReply(e)), RecordValue(e))
  }

  /** Beside a leader f, an idle follower's next attempt makes it a second leader if and only if no lease
      is live, whatever f believes. */
  lemma SecondLeaderExactly(s: State, e: nat, f: nat, localNow: int)
    requires Leads(s, f) && e in s.nodes && s.nodes[e].phase == Idle && !s.nodes[e].elector.isLeader
    ensures var t := Attempted(s, e, localNow);
            && (Enabled(t, Elect(e)) <==> Live(s.lease, s.now).None?)
            && (Enabled(t, Elect(e)) ==> Leads(Apply(t, Elect(e)), e) && Leads(Apply(t, Elect(e)), f))
            && (!Enabled(t, Elect(e)) ==> t.lease == s.lease && !Leads(t, e) && t.nodes[e].phase == Idle)
  {
    var a := Apply(Apply(s, Bump(e)), PrepareLease(e, localNow));
    var b := Apply(a, LeaseReply(e));
    assert b.nodes[e].phase.LeaseAnswered? && b.nodes[e].phase.acquired == Live(s.lease, s.now).None?;
  }

  // ---------- What the protocol does not give ----------

  /** One elector with the lease, one whose lease has lapsed while it cannot reach Redis: both
      believe to lead. Only one of them can hold the live lease (AtMostOneHolder) and their
      fencing tokens differ (LeaderFence). */
  lemma TwoLeadersReachable() returns (states: seq<State>, steps: seq<Step>)
    ensures IsRun(states, steps)
    ensures var s := states[|steps|]; Leads(s, 0) && Leads(s, 1) && !Holds(s, 0) && Holds(s, 1)
  {
    var idle := Node(NEW_ELECTOR, Idle, 0);
    var s0 := State(3000, 0, 0, None, 0, [], [], map[0 := idle, 1 := idle], {}, {}, {}, map[]);
    var states1, steps1 := Acquires(s0, 0, [s0], []);
    var s1 := states1[|steps1|];
    var s2 := Apply(s1, Tick(3000));
    states, steps := Acquires(s2, 1, states1 + [s2], steps1 + [Tick(3000)]);
  }

  /** An idle follower that finds the lease free becomes leader in five steps. */
  lemma Acquires(s: State, e: nat, before: seq<State>, steps: seq<Step>) returns (states': seq<State>, steps': seq<Step>)
    requires IsRun(before, steps) && before[|steps|] == s
    requires e in s.nodes && s.nodes[e] == Node(NEW_ELECTOR, Idle, 0) && Live(s.lease, s.now) == None
    ensures IsRun(states', steps') && |steps'| == |steps| + 5
    ensures Acquired(s, e, states'[|steps'|])
  {
    states', steps' := Continues(before, steps, Bump(e));
    states', steps' := Continues(states', steps', PrepareLease(e, s.now));
    states', steps' := Continues(states', steps', LeaseReply(e));
    states', steps' := Continues(states', steps', RecordValue(e));
    AttemptWins(s, e);
    states', steps' := Continues(states', steps', Elect(e));
  }

  /** e leads and holds the lease it was just granted, which lasts for one ttl; nobody else moved. */
  ghost predicate Acquired(s: State, e: nat, s': State) {
    && s'.now == s.now && s'.ttl == s.ttl && Holds(s', e) && Leads(s', e)
    && s'.lease.Some? && s'.lease.value.value.ownerPod == e && s'.lease.value.expiresAt == s.now + s.ttl
    && s'.nodes.Keys == s.nodes.Keys && (forall f :: f in s.nodes && f != e ==> s'.nodes[f] == s.nodes[f])
    && s'.nodes[e].elector.currentValue == Some(s'.lease.value.value)
  }

  lemma AttemptWins(s: State, e: nat)
    requires e in s.nodes && s.nodes[e] == Node(NEW_ELECTOR, Idle, 0) && Live(s.lease, s.now) == None
    ensures var t := Attempted(s, e, s.now);
            Enabled(t, Elect(e)) && Acquired(s, e, Apply(t, Elect(e)))
  {
    var b := Apply(Apply(s, Bump(e)), PrepareLease(e, s.now));
    var v := LockMetadata(e, s.durable + 1, s.now, s.now + s.ttl);
    assert b.nodes == s.nodes[e := Node(NEW_ELECTOR.(currentEpoch := s.durable + 1), LeaseRequested(v), 0)];
    var c := Apply(b, LeaseReply(e));
    assert c.lease == Some(Entry(v, s.now + s.ttl)) && c.nodes[e].phase == LeaseAnswered(v, true, |s.grants|);
    var t := Apply(c, RecordValue(e));
    assert t.nodes == s.nodes[e := t.nodes[e]] && t.lease == c.lease && t.nodes[e].phase == ValueRecorded;
    assert t == Attempted(s, e, s.now);
  }

  /** A run with one more step. */
  lemma Continues(before: seq<State>, steps: seq<Step>, step: Step) returns (states': seq<State>, steps': seq<Step>)
    requires IsRun(before, steps) && Enabled(before[|steps|], step)
    ensures IsRun(states', steps') && states' == before + [Apply(before[|steps|], step)] && steps' == steps + [step]
  {
    states', steps' := before + [Apply(before[|steps|], step)], steps + [step];
  }
}
