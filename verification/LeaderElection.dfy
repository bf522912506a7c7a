/**
 The lease protocol of control_plane/coordination: any number of electors, each bumping a durable
 epoch and then trying SET NX on one lease key with a value that embeds that epoch; renewals and
 releases by compare-on-value; any number of janitors reading the lease and force-deleting it;
 and a lease that expires. Every remote command is one atomic step, its reply may be lost, and a
 command whose caller gave up may still be executed later.
 */
module LeaderElection {
  import opened Wrappers
  import opened LockStore

  /** The lease value. Its JSON form is the string kept in Redis. */
  datatype LockMetadata = LockMetadata(ownerPod: nat, epoch: int, createdAt: int, expiresAt: int)

  /** The mutable fields of an elector; fence is the epoch carried by leaderCtx. */
  datatype Elector = Elector(
    isLeader: bool,
    currentValue: Option<LockMetadata>,
    currentEpoch: int,
    fence: Option<int>,
    fenceCancelled: bool,
    transitions: nat)

  const NEW_ELECTOR := Elector(false, None, 0, None, false, 0)

  function BecomeLeader(el: Elector): Elector {
    el.(isLeader := true, fence := Some(el.currentEpoch), fenceCancelled := false,
        transitions := el.transitions + 1)
  }

  function StepDown(el: Elector): Elector {
    if !el.isLeader then el
    else el.(isLeader := false, fenceCancelled := true, transitions := el.transitions + 1)
  }

  /** A lease value together with the position, in the log of grants, of the grant it came from. */
  datatype Observed = Observed(value: LockMetadata, grant: nat)

  /** Where an elector's loop stands between two remote commands. */
  datatype Phase =
    | Idle
    | EpochBumped(epoch: int)
    | LeaseRequested(value: LockMetadata)
    | LeaseAnswered(value: LockMetadata, acquired: bool, grant: nat)
    | ValueRecorded
    | RenewRequested(seen: Observed)
    | Halted

  datatype Node = Node(elector: Elector, phase: Phase, held: nat)

  /**
   durable: the epoch row. lease: the lease key. attempts, grants: every value ever prepared and
   every successful SET NX, in order. leaseGrant: the position in grants of the stored lease.
   late, renews, deletes: commands sent by a caller that no longer waits for the reply.
   janitors: the epoch each janitor has read.
   */
  datatype State = State(
    ttl: Ttl,
    now: int,
    durable: int,
    lease: Slot<LockMetadata>,
    leaseGrant: nat,
    attempts: seq<LockMetadata>,
    grants: seq<LockMetadata>,
    nodes: map<nat, Node>,
    late: set<LockMetadata>,
    renews: set<Observed>,
    deletes: set<Observed>,
    janitors: map<nat, int>)

  datatype Step =
    | Bump(e: nat)
    | LateBump
    | PrepareLease(e: nat, localNow: int)
    | LeaseReply(e: nat)
    | LeaseError(e: nat)
    | LateGrant(v: LockMetadata)
    | RecordValue(e: nat)
    | Elect(e: nat)
    | RenewRequest(e: nat)
    | RenewReply(e: nat)
    | RenewError(e: nat, giveUp: bool)
    | LateRenew(o: Observed)
    | Release(e: nat)
    | Halt(e: nat)
    | JanitorEpoch(j: nat)
    | JanitorRead(j: nat, localNow: int)
    | LateDelete(o: Observed)
    | Tick(d: nat)
    | FlushRedis

  ghost predicate Init(s: State) {
    && s.durable == 0 && s.lease == None && s.attempts == [] && s.grants == []
    && s.late == {} && s.renews == {} && s.deletes == {} && s.janitors == map[]
    && forall e :: e in s.nodes ==> s.nodes[e] == Node(NEW_ELECTOR, Idle, 0)
  }

  predicate Enabled(s: State, step: Step) {
    match step
    case Bump(e) => e in s.nodes && s.nodes[e].phase == Idle && !s.nodes[e].elector.isLeader
    case PrepareLease(e, _) => e in s.nodes && s.nodes[e].phase.EpochBumped?
    case LeaseReply(e) => e in s.nodes && s.nodes[e].phase.LeaseRequested?
    case LeaseError(e) => e in s.nodes && s.nodes[e].phase.LeaseRequested?
    case LateGrant(v) => v in s.late
    case RecordValue(e) => e in s.nodes && s.nodes[e].phase.LeaseAnswered?
    case Elect(e) => e in s.nodes && s.nodes[e].phase == ValueRecorded
    case RenewRequest(e) => e in s.nodes && s.nodes[e].phase == Idle && s.nodes[e].elector.isLeader
    case RenewReply(e) => e in s.nodes && s.nodes[e].phase.RenewRequested?
    case RenewError(e, _) => e in s.nodes && s.nodes[e].phase.RenewRequested?
    case LateRenew(o) => o in s.renews
    case Release(e) => e in s.nodes && s.nodes[e].elector.currentValue.Some?
    case Halt(e) => e in s.nodes && s.nodes[e].phase == Idle
    case JanitorRead(j, _) => j in s.janitors
    case LateDelete(o) => o in s.deletes
    case _ => true
  }

  /** The janitor's test: fenced by a newer epoch, or five seconds past its own expiry stamp. */
  predicate ShouldEvict(meta: LockMetadata, currentEpoch: int, localNow: int) {
    meta.epoch < currentEpoch || meta.expiresAt + 5000 < localNow
  }

  function At(s: State, e: nat, elector: Elector, phase: Phase): State
    requires e in s.nodes
  {
    s.(nodes := s.nodes[e := s.nodes[e].(elector := elector, phase := phase)])
  }

  /** The atomic SET NX, logged when it succeeds. */
  function ExecSetNx(s: State, v: LockMetadata): (State, bool) {
    var (slot, ok) := SetNx(s.lease, v, s.ttl, s.now);
    if ok then (s.(lease := slot, leaseGrant := |s.grants|, grants := s.grants + [v]), true)
    else (s, false)
  }

  function ExecRenew(s: State, v: LockMetadata): (State, bool) {
    var (slot, ok) := CompareAndExpire(s.lease, v, s.ttl, s.now);
    (s.(lease := slot), ok)
  }

  function ExecDelete(s: State, v: LockMetadata): State {
    s.(lease := CompareAndDelete(s.lease, v, s.now))
  }

  function Apply(s: State, step: Step): State
    requires Enabled(s, step)
  {
    match step
    case Bump(e) => At(s.(durable := s.durable + 1), e, s.nodes[e].elector, EpochBumped(s.durable + 1))
    case LateBump => s.(durable := s.durable + 1)
    case PrepareLease(e, localNow) =>
      var epoch := s.nodes[e].phase.epoch;
      var v := LockMetadata(e, epoch, localNow, localNow + s.ttl);
      At(s.(attempts := s.attempts + [v]), e, s.nodes[e].elector.(currentEpoch := epoch), LeaseRequested(v))
    case LeaseReply(e) =>
      var v := s.nodes[e].phase.value;
      var (s', ok) := ExecSetNx(s, v);
      At(s', e, s.nodes[e].elector, LeaseAnswered(v, ok, |s.grants|))
    case LeaseError(e) =>
      At(s.(late := s.late + {s.nodes[e].phase.value}), e, s.nodes[e].elector, Idle)
    case LateGrant(v) => ExecSetNx(s, v).0.(late := s.late - {v})
    case RecordValue(e) =>
      var n := s.nodes[e];
      if n.phase.acquired then
        s.(nodes := s.nodes[e := Node(n.elector.(currentValue := Some(n.phase.value)), ValueRecorded, n.phase.grant)])
      else At(s, e, n.elector, Idle)
    case Elect(e) => At(s, e, BecomeLeader(s.nodes[e].elector), Idle)
    case RenewRequest(e) =>
      var el := s.nodes[e].elector;
      if el.currentValue.None? then At(s, e, StepDown(el), Idle)
      else At(s, e, el, RenewRequested(Observed(el.currentValue.value, s.nodes[e].held)))
    case RenewReply(e) =>
      var (s', ok) := ExecRenew(s, s.nodes[e].phase.seen.value);
      At(s', e, if ok then s.nodes[e].elector else StepDown(s.nodes[e].elector), Idle)
    case RenewError(e, giveUp) =>
      At(s.(renews := s.renews + {s.nodes[e].phase.seen}), e,
         if giveUp then StepDown(s.nodes[e].elector) else s.nodes[e].elector, Idle)
    case LateRenew(o) => ExecRenew(s, o.value).0
    case Release(e) =>
      s.(deletes := s.deletes + {Observed(s.nodes[e].elector.currentValue.value, s.nodes[e].held)})
    case Halt(e) => At(s, e, s.nodes[e].elector, Halted)
    case JanitorEpoch(j) => s.(janitors := s.janitors[j := s.durable])
    case JanitorRead(j, localNow) =>
      var read := Live(s.lease, s.now);
      if read.Some? && ShouldEvict(read.value, s.janitors[j], localNow)
      then s.(deletes := s.deletes + {Observed(read.value, s.leaseGrant)})
      else s
    case LateDelete(o) => ExecDelete(s, o.value).(deletes := s.deletes - {o})
    case Tick(d) => s.(now := s.now + d)
    case FlushRedis => s.(lease := None)
  }

  ghost predicate IsRun(states: seq<State>, steps: seq<Step>) {
    && |states| == |steps| + 1
    && Init(states[0])
    && forall i {:trigger steps[i]} :: 0 <= i < |steps| ==> Enabled(states[i], steps[i]) && states[i+1] == Apply(states[i], steps[i])
  }

  // ---------- The inductive invariant ----------
  // Each part names only the components it depends on.

  ghost predicate AttemptsInv(attempts: seq<LockMetadata>, durable: int) {
    && 0 <= durable
    && (forall i :: 0 <= i < |attempts| ==> 1 <= attempts[i].epoch <= durable)
    && (forall i, j :: 0 <= i < j < |attempts| ==> attempts[i].epoch != attempts[j].epoch)
  }

  ghost predicate EpochUnused(attempts: seq<LockMetadata>, durable: int, epoch: int) {
    && 1 <= epoch <= durable
    && (forall i :: 0 <= i < |attempts| ==> attempts[i].epoch != epoch)
  }

  ghost predicate LogInv(attempts: seq<LockMetadata>, grants: seq<LockMetadata>) {
    && (forall i :: 0 <= i < |grants| ==> grants[i] in attempts)
    && (forall i, j :: 0 <= i < j < |grants| ==> grants[i] != grants[j])
  }

  ghost predicate LogMatches(grants: seq<LockMetadata>, o: Observed) {
    o.grant < |grants| && grants[o.grant] == o.value
  }

  ghost predicate AllMatch(grants: seq<LockMetadata>, seen: set<Observed>) {
    forall o :: o in seen ==> LogMatches(grants, o)
  }

  /** Sent once, not yet executed. */
  ghost predicate Outstanding(attempts: seq<LockMetadata>, grants: seq<LockMetadata>, v: LockMetadata) {
    v in attempts && v !in grants
  }

  ghost predicate LateInv(attempts: seq<LockMetadata>, grants: seq<LockMetadata>, late: set<LockMetadata>) {
    forall v :: v in late ==> Outstanding(attempts, grants, v)
  }

  ghost predicate StoredInv(grants: seq<LockMetadata>, lease: Slot<LockMetadata>, leaseGrant: nat) {
    lease.Some? ==> LogMatches(grants, Observed(lease.value.value, leaseGrant))
  }

  ghost predicate PhaseInv(durable: int, attempts: seq<LockMetadata>, grants: seq<LockMetadata>, late: set<LockMetadata>,
                           e: nat, el: Elector, phase: Phase)
  {
    match phase
    case EpochBumped(ep) => !el.isLeader && EpochUnused(attempts, durable, ep)
    case LeaseRequested(v) =>
      !el.isLeader && el.currentEpoch == v.epoch && v.ownerPod == e && Outstanding(attempts, grants, v) && v !in late
    case LeaseAnswered(v, acquired, g) =>
      !el.isLeader && el.currentEpoch == v.epoch && v.ownerPod == e && (acquired ==> LogMatches(grants, Observed(v, g)))
    case ValueRecorded =>
      !el.isLeader && el.currentValue.Some? && el.currentEpoch == el.currentValue.value.epoch
    case RenewRequested(o) => LogMatches(grants, o)
    case _ => true
  }

  /** The elector's three copies of its epoch agree, and its fenced context is live. */
  predicate FenceCoherent(el: Elector) {
    && el.currentValue.Some?
    && el.currentEpoch == el.currentValue.value.epoch
    && el.fence == Some(el.currentEpoch)
    && !el.fenceCancelled
  }

  ghost predicate ElectorInv(grants: seq<LockMetadata>, e: nat, el: Elector, held: nat) {
    && (el.currentValue.Some? ==>
          LogMatches(grants, Observed(el.currentValue.value, held)) && el.currentValue.value.ownerPod == e)
    && (el.isLeader ==> FenceCoherent(el))
    && (!el.isLeader && el.fence.Some? ==> el.fenceCancelled)
  }

  ghost predicate NodeInv(durable: int, attempts: seq<LockMetadata>, grants: seq<LockMetadata>, late: set<LockMetadata>,
                          e: nat, n: Node)
  {
    && PhaseInv(durable, attempts, grants, late, e, n.elector, n.phase)
    && ElectorInv(grants, e, n.elector, n.held)
  }

  ghost predicate BumpsInv(nodes: map<nat, Node>) {
    forall e, f :: e in nodes && f in nodes && e != f && nodes[e].phase.EpochBumped? && nodes[f].phase.EpochBumped?
      ==> nodes[e].phase.epoch != nodes[f].phase.epoch
  }

  ghost predicate Inv(s: State) {
    && AttemptsInv(s.attempts, s.durable)
    && LogInv(s.attempts, s.grants)
    && StoredInv(s.grants, s.lease, s.leaseGrant)
    && LateInv(s.attempts, s.grants, s.late)
    && AllMatch(s.grants, s.renews)
    && AllMatch(s.grants, s.deletes)
    && BumpsInv(s.nodes)
    && forall e :: e in s.nodes ==> NodeInv(s.durable, s.attempts, s.grants, s.late, e, s.nodes[e])
  }

  // ---------- Growth of the logs ----------

  lemma DurableGrows(s: State, durable: int)
    requires Inv(s) && s.durable <= durable
    ensures Inv(s.(durable := durable))
  {
    forall e | e in s.nodes ensures NodeInv(durable, s.attempts, s.grants, s.late, e, s.nodes[e]) {
      assert NodeInv(s.durable, s.attempts, s.grants, s.late, e, s.nodes[e]);
    }
  }

  /** Replacing one elector and its phase, when the rest of the state stays put. */
  lemma NodeChanges(s: State, e: nat, n: Node)
    requires Inv(s) && e in s.nodes
    requires NodeInv(s.durable, s.attempts, s.grants, s.late, e, n)
    requires n.phase.EpochBumped? ==>
               forall f :: f in s.nodes && f != e && s.nodes[f].phase.EpochBumped? ==> s.nodes[f].phase.epoch != n.phase.epoch
    ensures Inv(s.(nodes := s.nodes[e := n]))
  {
    var nodes := s.nodes[e := n];
    forall f | f in nodes ensures NodeInv(s.durable, s.attempts, s.grants, s.late, f, nodes[f]) {
      assert f != e ==> NodeInv(s.durable, s.attempts, s.grants, s.late, f, s.nodes[f]);
    }
  }

  lemma AttemptExtendsLog(s: State, v: LockMetadata)
    requires AttemptsInv(s.attempts, s.durable) && EpochUnused(s.attempts, s.durable, v.epoch)
    requires LogInv(s.attempts, s.grants)
    ensures AttemptsInv(s.attempts + [v], s.durable)
    ensures Outstanding(s.attempts + [v], s.grants, v)
    ensures LogInv(s.attempts + [v], s.grants)
    ensures LateInv(s.attempts, s.grants, s.late) ==> LateInv(s.attempts + [v], s.grants, s.late) && v !in s.late
  {
    assert v !in s.attempts;
    var more := s.attempts + [v];
    assert forall w :: w in s.attempts ==> w in more;
    assert more[|s.attempts|] == v;
  }

  /** An elector that took an unused epoch prepares its lease value. */
  lemma PrepareKeepsInv(s: State, e: nat, localNow: int)
    requires Inv(s) && Enabled(s, PrepareLease(e, localNow))
    ensures Inv(Apply(s, PrepareLease(e, localNow)))
  {
    assert NodeInv(s.durable, s.attempts, s.grants, s.late, e, s.nodes[e]);
    var epoch := s.nodes[e].phase.epoch;
    var v := LockMetadata(e, epoch, localNow, localNow + s.ttl);
    var s' := Apply(s, PrepareLease(e, localNow));
    AttemptExtendsLog(s, v);
    forall f | f in s.nodes ensures NodeInv(s.durable, s'.attempts, s.grants, s.late, f, s'.nodes[f]) {
      if f != e { AttemptKeepsNode(s, v, e, f); }
      else { assert ElectorInv(s.grants, e, s'.nodes[e].elector, s'.nodes[e].held); }
    }
  }

  lemma AttemptKeepsNode(s: State, v: LockMetadata, e: nat, f: nat)
    requires Inv(s) && e in s.nodes && f in s.nodes && f != e
    requires s.nodes[e].phase == EpochBumped(v.epoch)
    ensures NodeInv(s.durable, s.attempts + [v], s.grants, s.late, f, s.nodes[f])
  {
    assert NodeInv(s.durable, s.attempts, s.grants, s.late, f, s.nodes[f]);
    assert forall w :: w in s.attempts ==> w in s.attempts + [v];
  }

  /** Executing a SET NX that was sent once, is not yet executed, and that nobody else waits for. */
  lemma GrantKeepsInv(s: State, v: LockMetadata)
    requires Inv(s) && Outstanding(s.attempts, s.grants, v) && v !in s.late
    requires forall f :: f in s.nodes && s.nodes[f].phase.LeaseRequested? ==> s.nodes[f].phase.value != v
    ensures Inv(ExecSetNx(s, v).0)
    ensures ExecSetNx(s, v).1 ==> LogMatches(ExecSetNx(s, v).0.grants, Observed(v, |s.grants|))
  {
    var s' := ExecSetNx(s, v).0;
    if ExecSetNx(s, v).1 {
      assert s'.grants == s.grants + [v];
      assert forall o :: LogMatches(s.grants, o) ==> LogMatches(s'.grants, o);
      forall f | f in s.nodes ensures NodeInv(s.durable, s.attempts, s'.grants, s.late, f, s.nodes[f]) {
        assert NodeInv(s.durable, s.attempts, s.grants, s.late, f, s.nodes[f]);
      }
    }
  }

  lemma IdlePhase(s: State, e: nat)
    requires Inv(s) && e in s.nodes
    ensures Inv(At(s, e, s.nodes[e].elector, Idle))
  {
    assert NodeInv(s.durable, s.attempts, s.grants, s.late, e, s.nodes[e]);
    NodeChanges(s, e, s.nodes[e].(phase := Idle));
  }

  /** While e waits for v, nobody else does. */
  lemma LoneRequest(s: State, e: nat, f: nat)
    requires Inv(s) && e in s.nodes && f in s.nodes && e != f
    requires s.nodes[e].phase.LeaseRequested? && s.nodes[f].phase.LeaseRequested?
    ensures s.nodes[e].phase.value != s.nodes[f].phase.value
  {
    assert NodeInv(s.durable, s.attempts, s.grants, s.late, e, s.nodes[e]);
    assert NodeInv(s.durable, s.attempts, s.grants, s.late, f, s.nodes[f]);
  }

  lemma LeaseReplyKeepsInv(s: State, e: nat)
    requires Inv(s) && Enabled(s, LeaseReply(e))
    ensures Inv(Apply(s, LeaseReply(e)))
  {
    var v := s.nodes[e].phase.value;
    assert NodeInv(s.durable, s.attempts, s.grants, s.late, e, s.nodes[e]);
    IdlePhase(s, e);
    var idle := At(s, e, s.nodes[e].elector, Idle);
    forall f | f in idle.nodes && idle.nodes[f].phase.LeaseRequested? ensures idle.nodes[f].phase.value != v {
      LoneRequest(s, e, f);
    }
    GrantKeepsInv(idle, v);
    var (granted, ok) := ExecSetNx(idle, v);
    assert NodeInv(granted.durable, granted.attempts, granted.grants, granted.late, e, granted.nodes[e]);
    var n := granted.nodes[e].(phase := LeaseAnswered(v, ok, |s.grants|));
    NodeChanges(granted, e, n);
    assert Apply(s, LeaseReply(e)) == granted.(nodes := granted.nodes[e := n]) by {
      assert s.nodes[e := n] == idle.nodes[e := n];
    }
  }

  lemma LateGrantKeepsInv(s: State, v: LockMetadata)
    requires Inv(s) && v in s.late
    ensures Inv(Apply(s, LateGrant(v)))
  {
    var taken := s.(late := s.late - {v});
    forall f | f in s.nodes
      ensures NodeInv(s.durable, s.attempts, s.grants, taken.late, f, s.nodes[f])
      ensures s.nodes[f].phase.LeaseRequested? ==> s.nodes[f].phase.value != v
    {
      assert NodeInv(s.durable, s.attempts, s.grants, s.late, f, s.nodes[f]);
    }
    GrantKeepsInv(taken, v);
    assert Apply(s, LateGrant(v)) == ExecSetNx(taken, v).0;
  }

  lemma LeaseErrorKeepsInv(s: State, e: nat)
    requires Inv(s) && Enabled(s, LeaseError(e))
    ensures Inv(Apply(s, LeaseError(e)))
  {
    var v := s.nodes[e].phase.value;
    assert NodeInv(s.durable, s.attempts, s.grants, s.late, e, s.nodes[e]);
    IdlePhase(s, e);
    var idle := At(s, e, s.nodes[e].elector, Idle);
    forall f | f in idle.nodes ensures NodeInv(s.durable, s.attempts, s.grants, s.late + {v}, f, idle.nodes[f]) {
      assert NodeInv(s.durable, s.attempts, s.grants, s.late, f, idle.nodes[f]);
      if idle.nodes[f].phase.LeaseRequested? { LoneRequest(s, e, f); }
    }
  }

  lemma BumpKeepsInv(s: State, e: nat)
    requires Inv(s) && Enabled(s, Bump(e))
    ensures Inv(Apply(s, Bump(e)))
  {
    var more := s.(durable := s.durable + 1);
    DurableGrows(s, s.durable + 1);
    assert NodeInv(more.durable, s.attempts, s.grants, s.late, e, s.nodes[e]);
    forall f | f in s.nodes && s.nodes[f].phase.EpochBumped? ensures s.nodes[f].phase.epoch != s.durable + 1 {
      assert NodeInv(s.durable, s.attempts, s.grants, s.late, f, s.nodes[f]);
    }
    NodeChanges(more, e, s.nodes[e].(phase := EpochBumped(s.durable + 1)));
  }

  /** The lifetime of the lease changes, or the lease goes; the log does not. */
  lemma LeaseShrinks(s: State, lease: Slot<LockMetadata>)
    requires Inv(s)
    requires lease.Some? ==> s.lease.Some? && lease.value.value == s.lease.value.value
    ensures Inv(s.(lease := lease))
  {
  }

  /** Steps of one elector that prepare and grant nothing. */
  lemma LocalStepKeepsInv(s: State, step: Step)
    requires Inv(s) && Enabled(s, step)
    requires step.RecordValue? || step.Elect? || step.RenewRequest? || step.Halt?
    ensures Inv(Apply(s, step))
  {
    var e := step.e;
    assert NodeInv(s.durable, s.attempts, s.grants, s.late, e, s.nodes[e]);
    NodeChanges(s, e, Apply(s, step).nodes[e]);
  }

  lemma RenewKeepsInv(s: State, step: Step)
    requires Inv(s) && Enabled(s, step)
    requires step.RenewReply? || step.RenewError?
    ensures Inv(Apply(s, step))
  {
    var e := step.e;
    var s' := Apply(s, step);
    var o := s.nodes[e].phase.seen;
    assert NodeInv(s.durable, s.attempts, s.grants, s.late, e, s.nodes[e]);
    NodeChanges(s, e, s'.nodes[e]);
    if step.RenewReply? {
      LeaseShrinks(s.(nodes := s.nodes[e := s'.nodes[e]]), s'.lease);
    }
  }

  lemma ReleaseKeepsInv(s: State, e: nat)
    requires Inv(s) && Enabled(s, Release(e))
    ensures Inv(Apply(s, Release(e)))
  {
    assert NodeInv(s.durable, s.attempts, s.grants, s.late, e, s.nodes[e]);
  }

  /** Steps that touch no elector: late commands, janitors, the clock, a flushed store. */
  lemma RemoteStepKeepsInv(s: State, step: Step)
    requires Inv(s) && Enabled(s, step)
    requires step.LateRenew? || step.JanitorEpoch? || step.JanitorRead? || step.LateDelete? || step.Tick? || step.FlushRedis?
    ensures Inv(Apply(s, step))
  {
    if step.LateRenew? || step.LateDelete? || step.FlushRedis? {
      LateCommandKeepsInv(s, step);
    }
  }

  lemma LateCommandKeepsInv(s: State, step: Step)
    requires Inv(s) && Enabled(s, step) && (step.LateRenew? || step.LateDelete? || step.FlushRedis?)
    ensures Inv(Apply(s, step))
  {
    LeaseShrinks(s, Apply(s, step).lease);
  }

  lemma StepKeepsInv(s: State, step: Step)
    requires Inv(s) && Enabled(s, step)
    ensures Inv(Apply(s, step))
  {
    if step.RecordValue? || step.Elect? || step.RenewRequest? || step.Halt? {
      LocalStepKeepsInv(s, step);
    } else if step.RenewReply? || step.RenewError? {
      RenewKeepsInv(s, step);
    } else if step.Bump? || step.LateBump? || step.PrepareLease? || step.LeaseReply? || step.LeaseError? || step.LateGrant? {
      AcquireStepKeepsInv(s, step);
    } else if step.Release? {
      ReleaseKeepsInv(s, step.e);
    } else {
      RemoteStepKeepsInv(s, step);
    }
  }

  lemma AcquireStepKeepsInv(s: State, step: Step)
    requires Inv(s) && Enabled(s, step)
    requires step.Bump? || step.LateBump? || step.PrepareLease? || step.LeaseReply? || step.LeaseError? || step.LateGrant?
    ensures Inv(Apply(s, step))
  {
    match step
    case Bump(e) => BumpKeepsInv(s, e);
    case LateBump => DurableGrows(s, s.durable + 1);
    case PrepareLease(e, localNow) => PrepareKeepsInv(s, e, localNow);
    case LeaseReply(e) => LeaseReplyKeepsInv(s, e);
    case LeaseError(e) => LeaseErrorKeepsInv(s, e);
    case LateGrant(v) => LateGrantKeepsInv(s, v);
  }

  lemma {:induction false} RunKeepsInv(states: seq<State>, steps: seq<Step>, n: nat)
    requires IsRun(states, steps) && n < |states|
    ensures Inv(states[n])
  {
    if n > 0 {
      RunKeepsInv(states, steps, n - 1);
      StepKeepsInv(states[n-1], steps[n-1]);
    }
  }
}
