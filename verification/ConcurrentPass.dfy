/**
 One reconciliation pass that releases its mutex between entries, interleaved with local writes and
 with other nodes writing to the store.
 */
module ConcurrentPass {
  import opened VersionedStore
  import opened Reconciliation
  import opened DegradedMode

  /** Where the pass stands at its current snapshot entry. */
  datatype Stage = AtEntry | BeforeSet | BeforeMark

  datatype PassState = NoPass | Running(snapshot: seq<PendingWrite>, cursor: nat, stage: Stage, judgedStale: set<nat>)

  datatype State = State(
    pending: seq<PendingWrite>,
    maxPending: nat,
    version: int,
    table: map<string, Versioned<Value>>,
    pass: PassState)

  datatype Step =
    | Append(key: string, value: Value, ttl: int, unixNow: int)
    | Begin
    | Decide(now: int, getCall: GetCall)
    | RunSet(call: SetCall)
    | Mark
    | Finish
    | OtherNode(key: string, v: Versioned<Value>)

  ghost predicate Init(s: State) {
    s.pending == [] && s.version == 0 && s.maxPending > 0 && s.pass == NoPass
  }

  function NewWrite(version: int, step: Step): PendingWrite
    requires step.Append?
  {
    PendingWrite(step.key, step.value, step.unixNow, step.ttl, version + 1, false)
  }

  /** SetInCacheWithTTL's effect on the log. */
  function AfterAppend(pending: seq<PendingWrite>, maxPending: nat, w: PendingWrite): seq<PendingWrite> {
    (if |pending| >= maxPending then DropOldest(pending) else pending) + [w]
  }

  predicate Enabled(s: State, step: Step) {
    match step
    case Begin => s.pass.NoPass?
    case Decide(_, _) => s.pass.Running? && s.pass.stage.AtEntry? && s.pass.cursor < |s.pass.snapshot|
    case RunSet(_) => s.pass.Running? && s.pass.stage.BeforeSet? && s.pass.cursor < |s.pass.snapshot|
    case Mark => s.pass.Running? && s.pass.stage.BeforeMark? && s.pass.cursor < |s.pass.snapshot|
    case Finish => s.pass.Running? && s.pass.cursor >= |s.pass.snapshot|
    case _ => true
  }

  function Apply(s: State, step: Step): State
    requires Enabled(s, step)
  {
    match step
    case Append(_, _, _, _) =>
      s.(pending := AfterAppend(s.pending, s.maxPending, NewWrite(s.version, step)), version := s.version + 1)
    case Begin => s.(pass := Running(s.pending, 0, AtEntry, {}))
    case Decide(now, getCall) =>
      var p := s.pass;
      var w := p.snapshot[p.cursor];
      var outcome := OutcomeOf(w, Env(now, getCall, Answered), Lookup(s.table, w.key));
      if outcome.Stale? then s.(pass := p.(stage := BeforeMark, judgedStale := p.judgedStale + {p.cursor}))
      else if outcome.NotNewer? then s.(pass := p.(stage := BeforeMark))
      else if outcome.Written? || outcome.SetFailed? then s.(pass := p.(stage := BeforeSet))
      else s.(pass := p.(cursor := p.cursor + 1))
    case RunSet(call) =>
      var p := s.pass;
      var w := p.snapshot[p.cursor];
      if call.NotExecuted? then s.(pass := p.(cursor := p.cursor + 1, stage := AtEntry)) else
      var (cell, ok) := SetScript(Lookup(s.table, w.key), ToVersioned(w));
      var next := s.(table := Put(s.table, w.key, cell));
      if ok && call.Answered? then next.(pass := p.(stage := BeforeMark))
      else next.(pass := p.(cursor := p.cursor + 1, stage := AtEntry))
    case Mark =>
      var p := s.pass;
      s.(pending := MarkedAt(s.pending, p.cursor), pass := p.(cursor := p.cursor + 1, stage := AtEntry))
    case Finish => s.(pending := Unreconciled(s.pending), pass := NoPass)
    case OtherNode(key, v) => s.(table := Put(s.table, key, SetScript(Lookup(s.table, key), v).0))
  }

  ghost predicate IsRun(states: seq<State>, steps: seq<Step>) {
    && |states| == |steps| + 1
    && Init(states[0])
    && forall i {:trigger steps[i]} :: 0 <= i < |steps| ==> Enabled(states[i], steps[i]) && states[i+1] == Apply(states[i], steps[i])
  }

  // ---------- The log in every run ----------

  /** The log stands in the order of its versions; between passes nothing in it is reconciled. */
  ghost predicate LogInv(s: State) {
    && s.maxPending > 0
    && Increasing(s.pending)
    && (forall i :: 0 <= i < |s.pending| ==> s.pending[i].version <= s.version)
    && (s.pass.NoPass? ==> forall i :: 0 <= i < |s.pending| ==> !s.pending[i].reconciled)
  }

  function Without(pending: seq<PendingWrite>, d: nat): (r: seq<PendingWrite>)
    requires d < |pending|
    ensures |r| == |pending| - 1
    ensures forall i :: 0 <= i < d ==> r[i] == pending[i]
    ensures forall i :: d <= i < |r| ==> r[i] == pending[i+1]
  {
    pending[..d] + pending[d+1..]
  }

  /** What the bound takes out of a log. */
  lemma DropOldestAt(pending: seq<PendingWrite>)
    ensures var d := FirstUnreconciled(pending);
            DropOldest(pending) == if d < |pending| then Without(pending, d) else pending
  {
    DropsFirstUnreconciled(pending, FirstUnreconciled(pending));
  }

  lemma {:induction false} DropOldestKeeps(pending: seq<PendingWrite>)
    ensures forall w :: w in DropOldest(pending) ==> w in pending
  {
    if pending != [] && pending[0].reconciled {
      DropOldestKeeps(pending[1..]);
    }
  }

  lemma WithoutKeepsOrder(pending: seq<PendingWrite>, d: nat)
    requires Increasing(pending) && d < |pending|
    ensures Increasing(Without(pending, d))
  {
  }

  lemma DropKeepsOrder(pending: seq<PendingWrite>)
    requires Increasing(pending)
    ensures Increasing(DropOldest(pending))
  {
    DropOldestAt(pending);
    if FirstUnreconciled(pending) < |pending| { WithoutKeepsOrder(pending, FirstUnreconciled(pending)); }
  }

  lemma NewerGoesLast(pending: seq<PendingWrite>, w: PendingWrite)
    requires Increasing(pending) && forall v :: v in pending ==> v.version < w.version
    ensures Increasing(pending + [w])
  {
  }

  lemma AppendKeepsOrder(pending: seq<PendingWrite>, maxPending: nat, w: PendingWrite)
    requires Increasing(pending) && forall v :: v in pending ==> v.version < w.version
    ensures Increasing(AfterAppend(pending, maxPending, w))
  {
    if |pending| >= maxPending {
      DropKeepsOrder(pending);
      DropOldestKeeps(pending);
      NewerGoesLast(DropOldest(pending), w);
    } else {
      NewerGoesLast(pending, w);
    }
  }

  lemma AppendKeepsLog(s: State, step: Step)
    requires LogInv(s) && Enabled(s, step) && step.Append?
    ensures LogInv(Apply(s, step))
  {
    var w := NewWrite(s.version, step);
    AppendKeepsOrder(s.pending, s.maxPending, w);
    DropOldestKeeps(s.pending);
    var after := AfterAppend(s.pending, s.maxPending, w);
    forall i | 0 <= i < |after| ensures after[i] == w || after[i] in s.pending {
      assert after[i] in after;
    }
  }

  lemma FinishKeepsLog(s: State)
    requires LogInv(s) && Enabled(s, Finish)
    ensures LogInv(Apply(s, Finish))
  {
    SweepKeepsOrder(s.pending);
    var swept := Unreconciled(s.pending);
    forall i | 0 <= i < |swept| ensures swept[i].version <= s.version && !swept[i].reconciled {
      assert swept[i] in s.pending;
    }
  }

  lemma StepKeepsLog(s: State, step: Step)
    requires LogInv(s) && Enabled(s, step)
    ensures LogInv(Apply(s, step))
  {
    if step.Append? {
      AppendKeepsLog(s, step);
    } else if step.Finish? {
      FinishKeepsLog(s);
    }
  }

  lemma {:induction false} RunKeepsLog(states: seq<State>, steps: seq<Step>, n: nat)
    requires IsRun(states, steps) && n < |states|
    ensures LogInv(states[n])
  {
    if n > 0 {
      RunKeepsLog(states, steps, n - 1);
      StepKeepsLog(states[n-1], steps[n-1]);
    }
  }

  // ---------- One pass ----------

  /** The pass that begins at step b is still running before step n. */
  predicate OnePass(steps: seq<Step>, b: nat, n: nat) {
    b < n <= |steps| && steps[b] == Begin && forall i :: b < i < n ==> steps[i] != Begin && steps[i] != Finish
  }

  lemma StepKeepsSnapshot(s: State, step: Step)
    requires Enabled(s, step) && s.pass.Running? && step != Begin && step != Finish
    ensures var p := Apply(s, step).pass; p.Running? && p.snapshot == s.pass.snapshot
  {
  }

  lemma {:induction false} SnapshotStays(states: seq<State>, steps: seq<Step>, b: nat, n: nat)
    requires IsRun(states, steps) && OnePass(steps, b, n)
    ensures states[n].pass.Running? && states[n].pass.snapshot == states[b].pending
  {
    if n > b + 1 {
      SnapshotStays(states, steps, b, n - 1);
      StepKeepsSnapshot(states[n-1], steps[n-1]);
    }
  }

  /** Some step of the pass found the snapshot entry i too old. */
  ghost predicate FoundStale(states: seq<State>, steps: seq<Step>, b: nat, n: nat, i: nat)
    requires b < n <= |steps| < |states| && i < |states[b].pending|
  {
    exists m :: b < m < n && steps[m].Decide? && states[m].pass.Running? && states[m].pass.cursor == i
                && TooOld(states[b].pending[i], steps[m].now)
  }

  /** Judging an entry stale rests on its age at that step. */
  lemma {:induction false} JudgedStaleWasOld(states: seq<State>, steps: seq<Step>, b: nat, n: nat, i: nat)
    requires IsRun(states, steps) && OnePass(steps, b, n)
    requires i < |states[b].pending| && states[n].pass.Running? && i in states[n].pass.judgedStale
    ensures FoundStale(states, steps, b, n, i)
  {
    var m := n - 1;
    assert states[n] == Apply(states[m], steps[m]);
    if m > b {
      SnapshotStays(states, steps, b, m);
      if i in states[m].pass.judgedStale {
        JudgedStaleWasOld(states, steps, b, m, i);
      }
    }
  }

  // ---------- A pass whose writes stay below the bound ----------

  predicate SameWrite(a: PendingWrite, b: PendingWrite) {
    a.(reconciled := false) == b.(reconciled := false)
  }

  /** The store holds the write's version or a newer one. */
  predicate Covered(table: map<string, Versioned<Value>>, w: PendingWrite) {
    w.key in table && table[w.key].version >= w.version
  }

  /** Why the entry i of the snapshot may be dropped from the log. */
  predicate Settled(table: map<string, Versioned<Value>>, p: PassState, i: nat)
    requires p.Running? && i < |p.snapshot|
  {
    p.snapshot[i].reconciled || i in p.judgedStale || Covered(table, p.snapshot[i])
  }

  ghost predicate PassInv(table: map<string, Versioned<Value>>, pending: seq<PendingWrite>, p: PassState) {
    && p.Running?
    && p.cursor <= |p.snapshot| <= |pending|
    && (p.stage.BeforeMark? ==> p.cursor < |p.snapshot| && Settled(table, p, p.cursor))
    && (forall i :: 0 <= i < |p.snapshot| ==> SameWrite(pending[i], p.snapshot[i]))
    && (forall i :: 0 <= i < |p.snapshot| ==> (pending[i].reconciled ==> Settled(table, p, i)))
    && (forall i :: |p.snapshot| <= i < |pending| ==> !pending[i].reconciled)
  }

  /** No write recorded by the steps after b and before n finds the log full. */
  ghost predicate HasRoom(states: seq<State>, steps: seq<Step>, b: nat, n: nat)
    requires n <= |steps| < |states|
  {
    forall i :: b < i < n && steps[i].Append? ==> |states[i].pending| < states[i].maxPending
  }

  lemma TableGrowthKeepsPass(s: State, key: string, v: Versioned<Value>)
    requires PassInv(s.table, s.pending, s.pass)
    ensures PassInv(Put(s.table, key, SetScript(Lookup(s.table, key), v).0), s.pending, s.pass)
  {
    var table := Put(s.table, key, SetScript(Lookup(s.table, key), v).0);
    assert forall w :: Covered(s.table, w) ==> Covered(table, w);
    assert forall i: nat :: i < |s.pass.snapshot| && Settled(s.table, s.pass, i) ==> Settled(table, s.pass, i);
  }

  lemma RunSetKeepsPass(s: State, call: SetCall)
    requires PassInv(s.table, s.pending, s.pass) && Enabled(s, RunSet(call))
    ensures var s' := Apply(s, RunSet(call)); PassInv(s'.table, s'.pending, s'.pass)
  {
    var w := s.pass.snapshot[s.pass.cursor];
    TableGrowthKeepsPass(s, w.key, ToVersioned(w));
  }

  lemma DecideKeepsPass(s: State, now: int, getCall: GetCall)
    requires PassInv(s.table, s.pending, s.pass) && Enabled(s, Decide(now, getCall))
    ensures var s' := Apply(s, Decide(now, getCall)); PassInv(s'.table, s'.pending, s'.pass)
  {
  }

  lemma MarkKeepsPass(s: State)
    requires PassInv(s.table, s.pending, s.pass) && Enabled(s, Mark)
    ensures var s' := Apply(s, Mark); PassInv(s'.table, s'.pending, s'.pass)
  {
  }

  lemma StepKeepsPass(s: State, step: Step)
    requires PassInv(s.table, s.pending, s.pass) && Enabled(s, step) && step != Begin && step != Finish
    requires step.Append? ==> |s.pending| < s.maxPending
    ensures var s' := Apply(s, step); PassInv(s'.table, s'.pending, s'.pass)
  {
    match step
    case RunSet(call) => RunSetKeepsPass(s, call);
    case OtherNode(key, v) => TableGrowthKeepsPass(s, key, v);
    case Append(_, _, _, _) =>
    case Decide(now, getCall) => DecideKeepsPass(s, now, getCall);
    case Mark => MarkKeepsPass(s);
  }

  /** With writes below the bound and other nodes interleaved, a marked snapshot entry was reconciled
      before, judged stale, or is covered by the store. */
  lemma {:induction false} PassKeepsInv(states: seq<State>, steps: seq<Step>, b: nat, n: nat)
    requires IsRun(states, steps) && OnePass(steps, b, n) && HasRoom(states, steps, b, n)
    ensures PassInv(states[n].table, states[n].pending, states[n].pass)
  {
    if n > b + 1 {
      PassKeepsInv(states, steps, b, n - 1);
      StepKeepsPass(states[n-1], steps[n-1]);
    }
  }

  /** The writes recorded by the steps after b and before n, in order. */
  function Recorded(states: seq<State>, steps: seq<Step>, b: nat, n: nat): seq<PendingWrite>
    requires b < n <= |steps| <= |states|
  {
    if n == b + 1 then []
    else Recorded(states, steps, b, n - 1) + RecordedBy(states[n-1], steps[n-1])
  }

  function RecordedBy(s: State, step: Step): seq<PendingWrite> {
    if step.Append? then [NewWrite(s.version, step)] else []
  }

  /** The log of a running pass is the log it began with, some of it marked, then the writes
      recorded since. */
  ghost predicate LogSince(before: seq<PendingWrite>, recorded: seq<PendingWrite>, pending: seq<PendingWrite>, pass: PassState) {
    && pass.Running? && pass.snapshot == before
    && |before| <= |pending|
    && (forall i :: 0 <= i < |before| ==> SameWrite(pending[i], before[i]))
    && pending[|before|..] == recorded
  }

  lemma BeginStartsLogSince(s: State)
    requires Enabled(s, Begin)
    ensures LogSince(s.pending, [], Apply(s, Begin).pending, Apply(s, Begin).pass)
  {
  }

  lemma StepKeepsLogSince(before: seq<PendingWrite>, recorded: seq<PendingWrite>, s: State, step: Step)
    requires PassInv(s.table, s.pending, s.pass) && Enabled(s, step) && step != Begin && step != Finish
    requires step.Append? ==> |s.pending| < s.maxPending
    requires LogSince(before, recorded, s.pending, s.pass)
    ensures LogSince(before, recorded + RecordedBy(s, step), Apply(s, step).pending, Apply(s, step).pass)
  {
    assert recorded + [] == recorded;
  }

  /** While the pass runs and its writes stay below the bound, every snapshot index keeps naming the
      same write. */
  lemma {:induction false} IndicesStay(states: seq<State>, steps: seq<Step>, b: nat, n: nat)
    requires IsRun(states, steps) && OnePass(steps, b, n) && HasRoom(states, steps, b, n)
    ensures LogSince(states[b].pending, Recorded(states, steps, b, n), states[n].pending, states[n].pass)
  {
    if n > b + 1 {
      IndicesStay(states, steps, b, n - 1);
      PassKeepsInv(states, steps, b, n - 1);
      StepKeepsLogSince(states[b].pending, Recorded(states, steps, b, n - 1), states[n-1], steps[n-1]);
    } else {
      BeginStartsLogSince(states[b]);
    }
  }

  /** After the pass the snapshot entry i is still in the log, was found too old, or is in the store at its
      version or a newer one. */
  ghost predicate Accounted(states: seq<State>, steps: seq<Step>, b: nat, n: nat, i: nat)
    requires b < n < |steps| < |states| && i < |states[b].pending|
  {
    || states[b].pending[i] in states[n+1].pending
    || FoundStale(states, steps, b, n, i)
    || Covered(states[n+1].table, states[b].pending[i])
  }

  /** When the pass ends, every write recorded while it ran is in the log, unmarked and in order,
      after what is left of the snapshot; and a snapshot entry has left the log only if some step of
      the pass found it too old or the store holds its version or a newer one. */
  lemma PassLosesNothing(states: seq<State>, steps: seq<Step>, b: nat, n: nat)
    requires IsRun(states, steps) && n < |steps| && OnePass(steps, b, n) && steps[n] == Finish
    requires HasRoom(states, steps, b, n)
    ensures var k := |states[b].pending|;
            && k <= |states[n].pending|
            && states[n+1].pending == Unreconciled(states[n].pending[..k]) + Recorded(states, steps, b, n)
            && forall i: nat :: i < k ==> Accounted(states, steps, b, n, i)
  {
    RecordedFollow(states, steps, b, n);
    PassKeepsInv(states, steps, b, n);
    forall i: nat | i < |states[b].pending| ensures Accounted(states, steps, b, n, i) {
      EntryLeavesForAReason(states, steps, b, n, i);
    }
  }

  lemma RecordedFollow(states: seq<State>, steps: seq<Step>, b: nat, n: nat)
    requires IsRun(states, steps) && n < |steps| && OnePass(steps, b, n) && steps[n] == Finish
    requires HasRoom(states, steps, b, n)
    ensures var k := |states[b].pending|;
            k <= |states[n].pending|
            && states[n+1].pending == Unreconciled(states[n].pending[..k]) + Recorded(states, steps, b, n)
  {
    IndicesStay(states, steps, b, n);
    PassKeepsInv(states, steps, b, n);
    TailSurvives(states[n].pending, |states[b].pending|);
    assert states[n+1] == Apply(states[n], Finish);
  }

  lemma TailSurvives(log: seq<PendingWrite>, k: nat)
    requires k <= |log| && forall i :: k <= i < |log| ==> !log[i].reconciled
    ensures Unreconciled(log) == Unreconciled(log[..k]) + log[k..]
  {
    assert log == log[..k] + log[k..];
    UnreconciledInTwo(log[..k], log[k..]);
    AllUnreconciled(log[k..]);
  }

  lemma EntryLeavesForAReason(states: seq<State>, steps: seq<Step>, b: nat, n: nat, i: nat)
    requires IsRun(states, steps) && n < |steps| && OnePass(steps, b, n) && steps[n] == Finish
    requires PassInv(states[n].table, states[n].pending, states[n].pass) && i < |states[b].pending|
    ensures Accounted(states, steps, b, n, i)
  {
    RunKeepsLog(states, steps, b);
    SnapshotStays(states, steps, b, n);
    var log := states[n].pending;
    if !log[i].reconciled {
      assert log[i] == states[b].pending[i];
    } else {
      assert Settled(states[n].table, states[n].pass, i);
      if i in states[n].pass.judgedStale { JudgedStaleWasOld(states, steps, b, n, i); }
    }
  }

  lemma {:induction false} AllUnreconciled(log: seq<PendingWrite>)
    requires forall i :: 0 <= i < |log| ==> !log[i].reconciled
    ensures Unreconciled(log) == log
  {
    if log != [] {
      AllUnreconciled(log[1..]);
    }
  }

  // ---------- One write at the bound ----------

  /** A write recorded during a pass over the first k entries leaves every snapshot index naming its
      write exactly if the log is below its bound or no snapshot entry is still unreconciled. */
  lemma IndicesStayExactly(pending: seq<PendingWrite>, maxPending: nat, w: PendingWrite, k: nat)
    requires k <= |pending| && Increasing(pending)
    requires forall i :: 0 <= i < |pending| ==> pending[i].version < w.version
    ensures (forall i :: 0 <= i < k ==>
               i < |AfterAppend(pending, maxPending, w)| && AfterAppend(pending, maxPending, w)[i] == pending[i])
        <==> !(|pending| >= maxPending && exists i :: 0 <= i < k && !pending[i].reconciled)
  {
    var after := AfterAppend(pending, maxPending, w);
    if |pending| >= maxPending {
      var d := FirstUnreconciled(pending);
      DropOldestAt(pending);
      if d < |pending| {
        assert after[d].version > pending[d].version;
      }
    }
  }

  function FirstUnreconciled(pending: seq<PendingWrite>): (d: nat)
    ensures d <= |pending| && (d < |pending| ==> !pending[d].reconciled)
    ensures forall i :: 0 <= i < d ==> pending[i].reconciled
  {
    if pending == [] || !pending[0].reconciled then 0 else 1 + FirstUnreconciled(pending[1..])
  }
}
