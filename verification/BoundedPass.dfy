/**
 A reconciliation pass during which local writes reach the bound of the log: each such write takes a
 place out of the log and shifts the rest under the snapshot indices that the pass still marks.
 */
module BoundedPass {
  import opened Wrappers
  import opened VersionedStore
  import opened Reconciliation
  import opened DegradedMode
  import opened ConcurrentPass

  /** The first unreconciled write is among the first kept places. */
  predicate HasOldIn(pending: seq<PendingWrite>, kept: int) {
    FirstUnreconciled(pending) < |pending| && FirstUnreconciled(pending) < kept
  }

  /** The step records a write at the bound. */
  predicate AtBound(s: State, step: Step) {
    step.Append? && |s.pending| >= s.maxPending
  }

  /** The two ways to lose a write recorded during the pass, with kept snapshot entries left at the head of
      the log: the pass marks an index at or past kept, or the bound finds no other write to take. */
  predicate Loses(s: State, step: Step, kept: int) {
    || (step.Mark? && s.pass.Running? && kept <= s.pass.cursor < |s.pending|)
    || (AtBound(s, step) && kept <= FirstUnreconciled(s.pending) < |s.pending|)
  }

  /** What a pass has done to the log so far: how many snapshot entries are left at its head, whether some
      step has lost a recorded write, and the writes recorded. */
  datatype Track = Track(kept: int, lost: bool, recorded: seq<PendingWrite>)

  /** The head of the log that is left after a write, at the bound or below it. */
  function KeptAfter(pending: seq<PendingWrite>, maxPending: nat, kept: int): int {
    if |pending| >= maxPending && HasOldIn(pending, kept) then kept - 1 else kept
  }

  function TrackNext(s: State, step: Step, t: Track): Track {
    Track(if step.Append? then KeptAfter(s.pending, s.maxPending, t.kept) else t.kept,
          t.lost || Loses(s, step, t.kept), t.recorded + RecordedBy(s, step))
  }

  function TrackOf(states: seq<State>, steps: seq<Step>, b: nat, n: nat): Track
    requires b < n <= |steps| < |states|
  {
    if n == b + 1 then Track(|states[b].pending|, false, [])
    else TrackNext(states[n-1], steps[n-1], TrackOf(states, steps, b, n - 1))
  }

  predicate LosesAt(states: seq<State>, steps: seq<Step>, b: nat, i: nat)
    requires b < i < |steps| < |states|
  {
    Loses(states[i], steps[i], TrackOf(states, steps, b, i).kept)
  }

  ghost predicate NeverLoses(states: seq<State>, steps: seq<Step>, b: nat, n: nat)
    requires b < n <= |steps| < |states|
  {
    forall i :: b < i < n ==> !LosesAt(states, steps, b, i)
  }

  // ---------- The shape of the log ----------

  /** Snapshot entries first, then writes of the list; v0 is the version the pass began at. */
  ghost predicate Split(pending: seq<PendingWrite>, kept: int, v0: int, recorded: seq<PendingWrite>) {
    && Increasing(pending)
    && 0 <= kept <= |pending|
    && (forall i :: 0 <= i < kept ==> pending[i].version <= v0)
    && (forall i :: kept <= i < |pending| ==> v0 < pending[i].version && pending[i].(reconciled := false) in recorded)
  }

  ghost predicate Pristine(recorded: seq<PendingWrite>, v0: int, version: int) {
    forall w :: w in recorded ==> !w.reconciled && v0 < w.version <= version
  }

  /** Every recorded write is in the log, unmarked. */
  ghost predicate Intact(pending: seq<PendingWrite>, recorded: seq<PendingWrite>) {
    forall w :: w in recorded ==> w in pending
  }

  /** A version stands at one place of the log only. */
  lemma OnePlace(pending: seq<PendingWrite>, i: nat, w: PendingWrite)
    requires Increasing(pending) && i < |pending| && w in pending && w.version == pending[i].version
    ensures w == pending[i]
  {
  }

  lemma MarkSplits(pending: seq<PendingWrite>, kept: int, v0: int, recorded: seq<PendingWrite>, version: int, c: nat)
    requires Split(pending, kept, v0, recorded) && Pristine(recorded, v0, version)
    ensures Split(MarkedAt(pending, c), kept, v0, recorded)
    ensures Intact(MarkedAt(pending, c), recorded) <==> Intact(pending, recorded) && !(kept <= c < |pending|)
  {
    if c < |pending| {
      var marked := MarkedAt(pending, c);
      if kept <= c {
        var w := pending[c].(reconciled := false);
        if w in marked { OnePlace(marked, c, w); }
      } else {
        forall w | w in recorded ensures w in marked <==> w in pending {
          MarkKeepsOthers(pending, c, w);
        }
      }
    }
  }

  lemma MarkKeepsOthers(pending: seq<PendingWrite>, c: nat, w: PendingWrite)
    requires c < |pending| && w.version != pending[c].version
    ensures w in MarkedAt(pending, c) <==> w in pending
  {
    if w in pending {
      var i :| 0 <= i < |pending| && pending[i] == w;
      assert MarkedAt(pending, c)[i] == w;
    }
  }

  lemma WithoutSplits(pending: seq<PendingWrite>, kept: int, v0: int, recorded: seq<PendingWrite>, d: nat)
    requires Split(pending, kept, v0, recorded) && d < |pending|
    ensures Split(Without(pending, d), if d < kept then kept - 1 else kept, v0, recorded)
  {
    WithoutKeepsOrder(pending, d);
  }

  lemma WithoutIntact(pending: seq<PendingWrite>, kept: int, v0: int, recorded: seq<PendingWrite>, version: int, d: nat)
    requires Split(pending, kept, v0, recorded) && Pristine(recorded, v0, version) && d < |pending| && !pending[d].reconciled
    ensures Intact(Without(pending, d), recorded) <==> Intact(pending, recorded) && !(kept <= d)
  {
    forall w | w in recorded ensures w in Without(pending, d) <==> w in pending && w != pending[d] {
      WithoutKeepsOthers(pending, d, w);
    }
    if kept <= d {
      assert pending[d] == pending[d].(reconciled := false);
      assert pending[d] in recorded;
    }
  }

  lemma WithoutKeepsOthers(pending: seq<PendingWrite>, d: nat, w: PendingWrite)
    requires Increasing(pending) && d < |pending|
    ensures w in Without(pending, d) <==> w in pending && w != pending[d]
  {
    var after := Without(pending, d);
    if w in pending && w != pending[d] {
      var i :| 0 <= i < |pending| && pending[i] == w;
      assert after[if i < d then i else i - 1] == w;
    }
    if w in after {
      var i :| 0 <= i < |after| && after[i] == w;
      assert w == pending[if i < d then i else i + 1];
    }
  }

  lemma DropSplits(pending: seq<PendingWrite>, kept: int, v0: int, recorded: seq<PendingWrite>, version: int)
    requires Split(pending, kept, v0, recorded) && Pristine(recorded, v0, version)
    ensures Split(DropOldest(pending), if HasOldIn(pending, kept) then kept - 1 else kept, v0, recorded)
    ensures Intact(DropOldest(pending), recorded) <==>
              Intact(pending, recorded) && !(kept <= FirstUnreconciled(pending) < |pending|)
  {
    DropOldestAt(pending);
    var d := FirstUnreconciled(pending);
    if d < |pending| {
      WithoutSplits(pending, kept, v0, recorded, d);
      WithoutIntact(pending, kept, v0, recorded, version, d);
    }
  }

  lemma AppendSplits(pending: seq<PendingWrite>, kept: int, v0: int, recorded: seq<PendingWrite>, version: int, w: PendingWrite)
    requires Split(pending, kept, v0, recorded) && Pristine(recorded, v0, version) && v0 <= version
    requires w.version == version + 1 && !w.reconciled && forall i :: 0 <= i < |pending| ==> pending[i].version <= version
    ensures Split(pending + [w], kept, v0, recorded + [w]) && Pristine(recorded + [w], v0, version + 1)
    ensures Intact(pending + [w], recorded + [w]) <==> Intact(pending, recorded)
  {
    assert forall x :: x in recorded ==> x != w;
    assert forall x :: x in recorded + [w] <==> x in recorded || x == w;
    assert forall x :: x in pending + [w] <==> x in pending || x == w;
  }

  // ---------- Runs ----------

  ghost predicate ShiftInv(s: State, kept: int, v0: int, recorded: seq<PendingWrite>) {
    && v0 <= s.version && Split(s.pending, kept, v0, recorded) && Pristine(recorded, v0, s.version)
  }

  lemma AppendAtAnyBound(pending: seq<PendingWrite>, maxPending: nat, kept: int, v0: int, recorded: seq<PendingWrite>, version: int, w: PendingWrite)
    requires Split(pending, kept, v0, recorded) && Pristine(recorded, v0, version) && v0 <= version
    requires w.version == version + 1 && !w.reconciled && forall i :: 0 <= i < |pending| ==> pending[i].version <= version
    ensures Split(AfterAppend(pending, maxPending, w), KeptAfter(pending, maxPending, kept), v0, recorded + [w])
    ensures Pristine(recorded + [w], v0, version + 1)
    ensures Intact(AfterAppend(pending, maxPending, w), recorded + [w]) <==>
              Intact(pending, recorded) && !(|pending| >= maxPending && kept <= FirstUnreconciled(pending) < |pending|)
  {
    if |pending| >= maxPending {
      DropSplits(pending, kept, v0, recorded, version);
      VersionsStay(pending, version);
      AppendSplits(DropOldest(pending), KeptAfter(pending, maxPending, kept), v0, recorded, version, w);
    } else {
      AppendSplits(pending, kept, v0, recorded, version, w);
    }
  }

  lemma VersionsStay(pending: seq<PendingWrite>, version: int)
    requires forall i :: 0 <= i < |pending| ==> pending[i].version <= version
    ensures forall i :: 0 <= i < |DropOldest(pending)| ==> DropOldest(pending)[i].version <= version
  {
    DropOldestKeeps(pending);
    forall i | 0 <= i < |DropOldest(pending)| ensures DropOldest(pending)[i].version <= version {
      assert DropOldest(pending)[i] in pending;
    }
  }

  lemma AppendShifts(s: State, step: Step, kept: int, v0: int, recorded: seq<PendingWrite>)
    requires LogInv(s) && ShiftInv(s, kept, v0, recorded) && Enabled(s, step) && step.Append?
    ensures ShiftInv(Apply(s, step), KeptAfter(s.pending, s.maxPending, kept), v0, recorded + RecordedBy(s, step))
    ensures Intact(Apply(s, step).pending, recorded + RecordedBy(s, step)) <==> Intact(s.pending, recorded) && !Loses(s, step, kept)
  {
    AppendAtAnyBound(s.pending, s.maxPending, kept, v0, recorded, s.version, NewWrite(s.version, step));
  }

  lemma StepShifts(s: State, step: Step, kept: int, v0: int, recorded: seq<PendingWrite>)
    requires LogInv(s) && ShiftInv(s, kept, v0, recorded) && Enabled(s, step) && step != Begin && step != Finish
    ensures ShiftInv(Apply(s, step), if step.Append? then KeptAfter(s.pending, s.maxPending, kept) else kept, v0, recorded + RecordedBy(s, step))
    ensures Intact(Apply(s, step).pending, recorded + RecordedBy(s, step)) <==> Intact(s.pending, recorded) && !Loses(s, step, kept)
  {
    if step.Append? {
      AppendShifts(s, step, kept, v0, recorded);
    } else {
      assert recorded + RecordedBy(s, step) == recorded;
      if step.Mark? {
        MarkSplits(s.pending, kept, v0, recorded, s.version, s.pass.cursor);
      }
    }
  }

  /** The log is as the track says; every recorded write is in it, unmarked, exactly if none was lost. */
  ghost predicate OnTrack(s: State, t: Track, v0: int) {
    ShiftInv(s, t.kept, v0, t.recorded) && (Intact(s.pending, t.recorded) <==> !t.lost)
  }

  lemma BeginsOnTrack(states: seq<State>, steps: seq<Step>, b: nat)
    requires IsRun(states, steps) && OnePass(steps, b, b + 1)
    ensures OnTrack(states[b+1], Track(|states[b].pending|, false, []), states[b].version)
  {
    RunKeepsLog(states, steps, b);
    assert states[b+1] == Apply(states[b], steps[b]);
  }

  lemma StaysOnTrack(states: seq<State>, steps: seq<Step>, b: nat, n: nat, t: Track)
    requires IsRun(states, steps) && OnePass(steps, b, n) && b + 1 < n && OnTrack(states[n-1], t, states[b].version)
    ensures OnTrack(states[n], TrackNext(states[n-1], steps[n-1], t), states[b].version)
  {
    RunKeepsLog(states, steps, n - 1);
    StepShifts(states[n-1], steps[n-1], t.kept, states[b].version, t.recorded);
  }

  lemma ShorterPass(steps: seq<Step>, b: nat, n: nat)
    requires OnePass(steps, b, n) && n > b + 1
    ensures OnePass(steps, b, n - 1)
  {
  }

  /** During a pass, however often the bound is reached, the log is what is left of the snapshot followed by
      recorded writes. */
  lemma {:induction false} PassShifts(states: seq<State>, steps: seq<Step>, b: nat, n: nat) returns (t: Track)
    requires IsRun(states, steps) && OnePass(steps, b, n)
    ensures t == TrackOf(states, steps, b, n) && OnTrack(states[n], t, states[b].version)
    decreases n
  {
    if n == b + 1 {
      t := Track(|states[b].pending|, false, []);
      BeginsOnTrack(states, steps, b);
    } else {
      ShorterPass(steps, b, n);
      var earlier := PassShifts(states, steps, b, n - 1);
      t := TrackNext(states[n-1], steps[n-1], earlier);
      StaysOnTrack(states, steps, b, n, earlier);
    }
  }

  /** The track's list and its flag, by the steps of the pass. */
  lemma {:induction false} TrackMeans(states: seq<State>, steps: seq<Step>, b: nat, n: nat)
    requires b < n <= |steps| < |states|
    ensures TrackOf(states, steps, b, n).recorded == Recorded(states, steps, b, n)
    ensures TrackOf(states, steps, b, n).lost <==> !NeverLoses(states, steps, b, n)
    decreases n
  {
    if n > b + 1 {
      TrackMeans(states, steps, b, n - 1);
      assert NeverLoses(states, steps, b, n) <==> NeverLoses(states, steps, b, n - 1) && !LosesAt(states, steps, b, n - 1);
    }
  }

  lemma SweepKeepsIntact(pending: seq<PendingWrite>, recorded: seq<PendingWrite>, v0: int, version: int)
    requires Pristine(recorded, v0, version)
    ensures Intact(Unreconciled(pending), recorded) <==> Intact(pending, recorded)
  {
  }

  /** Every write recorded during a pass is still in the log after it, if and only if no step of the pass
      marks an index at or past the snapshot entries left in the log, nor finds the log full with nothing
      but recorded writes to take. */
  lemma RecordedSurviveExactly(states: seq<State>, steps: seq<Step>, b: nat, n: nat)
    requires IsRun(states, steps) && n < |steps| && OnePass(steps, b, n) && steps[n] == Finish
    ensures Intact(states[n+1].pending, Recorded(states, steps, b, n)) <==> NeverLoses(states, steps, b, n)
  {
    var t := PassShifts(states, steps, b, n);
    TrackMeans(states, steps, b, n);
    SweepKeepsIntact(states[n].pending, t.recorded, states[b].version, states[n].version);
    assert states[n+1] == Apply(states[n], Finish);
  }

  // ---------- Snapshot entries ----------

  /** What has become of a snapshot entry: it stands at a place of the log, unmarked or marked, or the bound
      has taken it. */
  datatype Fate = Standing(place: nat) | Marked(place: nat) | Taken

  /** The first unreconciled place is gone, and what stood behind it is one place further down. */
  function FateAfterDrop(pending: seq<PendingWrite>, f: Fate): Fate {
    var d := FirstUnreconciled(pending);
    match f
    case Standing(p) => if d < p then Standing(p - 1) else if d == p then Taken else f
    case Marked(p) => if d < p then Marked(p - 1) else f
    case Taken => f
  }

  /** A write at the bound moves or takes the entry; a mark hits whatever stands at the pass's index. */
  function FateNext(s: State, step: Step, f: Fate): Fate {
    if AtBound(s, step) then FateAfterDrop(s.pending, f)
    else if step.Mark? && s.pass.Running? && f == Standing(s.pass.cursor) then Marked(s.pass.cursor)
    else f
  }

  function FateOf(states: seq<State>, steps: seq<Step>, b: nat, n: nat, i: nat): Fate
    requires b < n <= |steps| < |states|
  {
    if n == b + 1 then Standing(i) else FateNext(states[n-1], steps[n-1], FateOf(states, steps, b, n - 1, i))
  }

  /** The log shows the write w as its fate says. */
  ghost predicate Shows(pending: seq<PendingWrite>, w: PendingWrite, f: Fate) {
    match f
    case Standing(p) => p < |pending| && pending[p] == w
    case Marked(p) => p < |pending| && pending[p] == w.(reconciled := true)
    case Taken => forall x :: x in pending ==> x.version != w.version
  }

  lemma MarkShows(pending: seq<PendingWrite>, w: PendingWrite, f: Fate, c: nat)
    requires Increasing(pending) && !w.reconciled && Shows(pending, w, f)
    ensures Shows(MarkedAt(pending, c), w, if f == Standing(c) then Marked(c) else f)
  {
    if c < |pending| && f.Taken? {
      assert pending[c] in pending;
    }
  }

  /** Taking out another place moves the write at most one down. */
  lemma OtherDropShows(pending: seq<PendingWrite>, w: PendingWrite, f: Fate, d: nat)
    requires d < |pending| && Shows(pending, w, f) && (f.Taken? || f.place != d)
    ensures Shows(Without(pending, d), w, if !f.Taken? && d < f.place then f.(place := f.place - 1) else f)
  {
    if f.Taken? {
      forall x | x in Without(pending, d) ensures x in pending {
        var k :| 0 <= k < |pending| - 1 && Without(pending, d)[k] == x;
        assert x == pending[if k < d then k else k + 1];
      }
    }
  }

  lemma OwnDropTakes(pending: seq<PendingWrite>, w: PendingWrite, p: nat)
    requires Increasing(pending) && Shows(pending, w, Standing(p))
    ensures Shows(Without(pending, p), w, Taken)
  {
    forall x | x in Without(pending, p) ensures x.version != w.version {
      WithoutKeepsOthers(pending, p, x);
      if x.version == w.version { OnePlace(pending, p, x); }
    }
  }

  /** What the drop of an unreconciled place does to the entry. */
  lemma PlaceDropShows(pending: seq<PendingWrite>, w: PendingWrite, f: Fate, d: nat)
    requires Increasing(pending) && Shows(pending, w, f) && d < |pending| && d == FirstUnreconciled(pending)
    ensures Shows(Without(pending, d), w, FateAfterDrop(pending, f))
  {
    if f == Standing(d) {
      OwnDropTakes(pending, w, d);
    } else {
      assert f.Marked? ==> f.place != d;
      OtherDropShows(pending, w, f, d);
    }
  }

  lemma DropShows(pending: seq<PendingWrite>, w: PendingWrite, f: Fate)
    requires Increasing(pending) && Shows(pending, w, f)
    ensures Shows(DropOldest(pending), w, FateAfterDrop(pending, f))
  {
    DropOldestAt(pending);
    if FirstUnreconciled(pending) < |pending| {
      PlaceDropShows(pending, w, f, FirstUnreconciled(pending));
    }
  }

  lemma AppendShows(pending: seq<PendingWrite>, w: PendingWrite, f: Fate, v: PendingWrite)
    requires Shows(pending, w, f) && v.version != w.version
    ensures Shows(pending + [v], w, f)
  {
  }

  lemma StepShows(s: State, step: Step, w: PendingWrite, f: Fate)
    requires LogInv(s) && Enabled(s, step) && step != Begin && step != Finish
    requires !w.reconciled && w.version <= s.version && Shows(s.pending, w, f)
    ensures w.version <= Apply(s, step).version && Shows(Apply(s, step).pending, w, FateNext(s, step, f))
  {
    if step.Append? {
      if AtBound(s, step) {
        DropShows(s.pending, w, f);
        AppendShows(DropOldest(s.pending), w, FateAfterDrop(s.pending, f), NewWrite(s.version, step));
      } else {
        AppendShows(s.pending, w, f, NewWrite(s.version, step));
      }
    } else if step.Mark? {
      MarkShows(s.pending, w, f, s.pass.cursor);
    }
  }

  /** Throughout a pass the log shows the snapshot entry i as its fate says. */
  lemma {:induction false} PassShows(states: seq<State>, steps: seq<Step>, b: nat, n: nat, i: nat) returns (f: Fate)
    requires IsRun(states, steps) && OnePass(steps, b, n) && i < |states[b].pending|
    ensures f == FateOf(states, steps, b, n, i)
    ensures states[b].pending[i].version <= states[n].version && Shows(states[n].pending, states[b].pending[i], f)
    decreases n
  {
    RunKeepsLog(states, steps, b);
    if n == b + 1 {
      f := Standing(i);
      assert states[n] == Apply(states[b], steps[b]);
    } else {
      ShorterPass(steps, b, n);
      var earlier := PassShows(states, steps, b, n - 1, i);
      f := FateNext(states[n-1], steps[n-1], earlier);
      RunKeepsLog(states, steps, n - 1);
      StepShows(states[n-1], steps[n-1], states[b].pending[i], earlier);
    }
  }

  /** A snapshot entry is still in the log after the pass if and only if its fate is to stand: the bound has
      not taken it, and the pass, dealing with it or with another entry, has not marked its place. So one
      that is to be retried survives unless the bound takes it or another entry's mark hits it. */
  lemma SnapshotEntrySurvivesExactly(states: seq<State>, steps: seq<Step>, b: nat, n: nat, i: nat)
    requires IsRun(states, steps) && n < |steps| && OnePass(steps, b, n) && steps[n] == Finish && i < |states[b].pending|
    ensures states[b].pending[i] in states[n+1].pending <==> FateOf(states, steps, b, n, i).Standing?
  {
    var f := PassShows(states, steps, b, n, i);
    RunKeepsLog(states, steps, b);
    RunKeepsLog(states, steps, n);
    assert states[n+1] == Apply(states[n], Finish);
    EntrySwept(states[n].pending, states[b].pending[i], f);
  }

  lemma EntrySwept(pending: seq<PendingWrite>, w: PendingWrite, f: Fate)
    requires Increasing(pending) && !w.reconciled && Shows(pending, w, f)
    ensures w in Unreconciled(pending) <==> f.Standing?
  {
    if f.Marked? && w in pending { OnePlace(pending, f.place, w); }
  }

  // ---------- A loss at every bound ----------

  /** The first n writes of a log of maxPending ones: the last to "z", the others to "a". */
  function Filled(n: nat, maxPending: nat): seq<PendingWrite> {
    seq(n, j => PendingWrite(if j + 1 == maxPending then "z" else "a", "x", 0, 0, j + 1, false))
  }

  lemma Continues(before: seq<State>, steps: seq<Step>, step: Step) returns (states': seq<State>, steps': seq<Step>)
    requires IsRun(before, steps) && Enabled(before[|steps|], step)
    ensures IsRun(states', steps') && states' == before + [Apply(before[|steps|], step)] && steps' == steps + [step]
  {
    states', steps' := before + [Apply(before[|steps|], step)], steps + [step];
  }

  lemma {:induction false} Fills(maxPending: nat, n: nat) returns (states: seq<State>, steps: seq<Step>)
    requires 0 < maxPending && n <= maxPending
    ensures IsRun(states, steps) && states[0].maxPending == maxPending && states[|steps|] == State(Filled(n, maxPending), maxPending, n, map[], NoPass)
  {
    if n == 0 {
      states, steps := [State([], maxPending, 0, map[], NoPass)], [];
    } else {
      states, steps := Fills(maxPending, n - 1);
      var key := if n == maxPending then "z" else "a";
      assert Filled(n - 1, maxPending) + [PendingWrite(key, "x", 0, 0, n, false)] == Filled(n, maxPending);
      states, steps := Continues(states, steps, Append(key, "x", 0, 0));
    }
  }

  /** The pass begins and its gets fail up to the entry c. */
  lemma {:induction false} FailsUpTo(maxPending: nat, c: nat) returns (states: seq<State>, steps: seq<Step>)
    requires 0 < maxPending && c < maxPending
    ensures IsRun(states, steps) && states[0].maxPending == maxPending
    ensures states[|steps|] == State(Filled(maxPending, maxPending), maxPending, maxPending, map[], Running(Filled(maxPending, maxPending), c, AtEntry, {}))
  {
    if c == 0 {
      states, steps := Fills(maxPending, maxPending);
      states, steps := Continues(states, steps, Begin);
    } else {
      states, steps := FailsUpTo(maxPending, c - 1);
      states, steps := Continues(states, steps, Decide(0, GetError));
    }
  }

  /** What the log holds once a write to "b" has taken its last place, marked or not. */
  function Shifted(maxPending: nat, marked: bool): seq<PendingWrite>
    requires maxPending > 0
  {
    Filled(maxPending, maxPending)[1..] + [PendingWrite("b", "y", 0, 0, maxPending + 1, marked)]
  }

  /** A write to "b" finds the log full while the pass is at the entry c. */
  lemma ShiftsAt(maxPending: nat, c: nat) returns (states: seq<State>, steps: seq<Step>, a: nat)
    requires c < maxPending
    ensures IsRun(states, steps) && states[0].maxPending == maxPending
    ensures a < |steps| && steps[a] == Append("b", "y", 0, 0) && states[a].version == maxPending && states[a].pass.Running?
    ensures states[|steps|] == State(Shifted(maxPending, false), maxPending, maxPending + 1, map[],
              Running(Filled(maxPending, maxPending), c, AtEntry, {}))
  {
    states, steps := FailsUpTo(maxPending, c);
    a := |steps|;
    DropsFirstUnreconciled(Filled(maxPending, maxPending), 0);
    assert DropOldest(Filled(maxPending, maxPending)) == Filled(maxPending, maxPending)[1..];
    states, steps := Continues(states, steps, Append("b", "y", 0, 0));
  }

  /** The entry c is read, found missing in the store and written there. */
  lemma SetsEntry(maxPending: nat, c: nat) returns (states: seq<State>, steps: seq<Step>, a: nat)
    requires c < maxPending
    ensures IsRun(states, steps) && states[0].maxPending == maxPending
    ensures a < |steps| && steps[a] == Append("b", "y", 0, 0) && states[a].version == maxPending && states[a].pass.Running?
    ensures states[|steps|] == State(Shifted(maxPending, false), maxPending, maxPending + 1,
              map[Filled(maxPending, maxPending)[c].key := Versioned("x", c + 1, 0)],
              Running(Filled(maxPending, maxPending), c, BeforeMark, {}))
  {
    states, steps, a := ShiftsAt(maxPending, c);
    var s := states[|steps|];
    assert Apply(s, Decide(0, Read)) == s.(pass := s.pass.(stage := BeforeSet));
    states, steps := Continues(states, steps, Decide(0, Read));
    states, steps := Continues(states, steps, RunSet(Answered));
  }

  /** At any bound, a run in which a write recorded during a pass is gone after it and never reached the
      store: it takes the last place of the log, is marked in the stead of the write that was there, and
      is swept. */
  lemma BoundLosesWrite(maxPending: nat) returns (states: seq<State>, steps: seq<Step>, a: nat)
    requires 0 < maxPending
    ensures IsRun(states, steps) && states[0].maxPending == maxPending && a < |steps| && steps[a].Append?
    ensures var w, end := NewWrite(states[a].version, steps[a]), states[|steps|];
            states[a].pass.Running? && end.pass.NoPass? && w !in end.pending && w.key !in end.table
  {
    states, steps, a := MarksTheNew(maxPending);
    assert PendingWrite("b", "y", 0, 0, maxPending + 1, false) !in Shifted(maxPending, true);
    states, steps := Continues(states, steps, Finish);
  }

  /** The last entry is written to the store and marks the place where the new write stands. */
  lemma MarksTheNew(maxPending: nat) returns (states: seq<State>, steps: seq<Step>, a: nat)
    requires 0 < maxPending
    ensures IsRun(states, steps) && states[0].maxPending == maxPending
    ensures a < |steps| && steps[a] == Append("b", "y", 0, 0) && states[a].version == maxPending && states[a].pass.Running?
    ensures states[|steps|] == State(Shifted(maxPending, true), maxPending, maxPending + 1,
              map["z" := Versioned("x", maxPending, 0)], Running(Filled(maxPending, maxPending), maxPending, AtEntry, {}))
  {
    states, steps, a := SetsEntry(maxPending, maxPending - 1);
    assert MarkedAt(Shifted(maxPending, false), maxPending - 1) == Shifted(maxPending, true);
    states, steps := Continues(states, steps, Mark);
  }

  /** The entry before the last is written to the store and marks the place where the last one stands. */
  lemma MarksTheLast(maxPending: nat) returns (states: seq<State>, steps: seq<Step>)
    requires 1 < maxPending
    ensures IsRun(states, steps) && states[0].maxPending == maxPending
    ensures states[|steps|] == State(Filled(maxPending, maxPending)[1..maxPending-1]
                + [PendingWrite("z", "x", 0, 0, maxPending, true), PendingWrite("b", "y", 0, 0, maxPending + 1, false)],
              maxPending, maxPending + 1, map["a" := Versioned("x", maxPending - 1, 0)],
              Running(Filled(maxPending, maxPending), maxPending - 1, AtEntry, {}))
  {
    var a: nat;
    states, steps, a := SetsEntry(maxPending, maxPending - 2);
    assert MarkedAt(Shifted(maxPending, false), maxPending - 2) == Filled(maxPending, maxPending)[1..maxPending-1]
             + [PendingWrite("z", "x", 0, 0, maxPending, true), PendingWrite("b", "y", 0, 0, maxPending + 1, false)];
    states, steps := Continues(states, steps, Mark);
  }

  /** At any bound above one, a run in which an entry of the snapshot, whose own get fails and which is
      therefore to be retried, is gone after the pass and never reached the store. */
  lemma BoundLosesRetry(maxPending: nat) returns (states: seq<State>, steps: seq<Step>)
    requires 1 < maxPending
    ensures IsRun(states, steps) && states[0].maxPending == maxPending && |steps| >= 2
    ensures var asked, end, w := states[|steps|-2], states[|steps|], Filled(maxPending, maxPending)[maxPending-1];
            && steps[|steps|-2] == Decide(0, GetError) && steps[|steps|-1] == Finish
            && asked.pass.Running? && asked.pass.snapshot == Filled(maxPending, maxPending) && asked.pass.cursor == maxPending - 1
            && w !in end.pending && w.key !in end.table
  {
    states, steps := MarksTheLast(maxPending);
    var before := states[|steps|].pending;
    states, steps := Continues(states, steps, Decide(0, GetError));
    assert states[|steps|].pending == before && states[|steps|].pass.cursor == maxPending;
    assert Filled(maxPending, maxPending)[maxPending-1] !in before;
    states, steps := Continues(states, steps, Finish);
  }
}
