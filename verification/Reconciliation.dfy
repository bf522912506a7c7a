/**
 One pass of ReconcilePendingWrites (control_plane/resilience/reconciliation.go) over the pending
 log, as a function of the log, the store and what each remote call does.
 */
module Reconciliation {
  import opened Wrappers
  import opened VersionedStore

  type Value = string

  datatype PendingWrite = PendingWrite(key: string, value: Value, timestamp: int, ttl: int, version: int, reconciled: bool)

  /** What the versioned get does: it answers, answers with an error, or loses its reply, which the
      Redis store reports as a missing key. */
  datatype GetCall = Read | GetError | ReadsAsMissing

  /** What the versioned set does: it answers, fails before the script runs, or runs it and loses
      the reply. */
  datatype SetCall = Answered | NotExecuted | ReplyLost

  /** The clock (nanoseconds) and the remote calls met while one entry is processed. */
  datatype Env = Env(now: int, getCall: GetCall, setCall: SetCall)

  /** How an entry was dealt with. */
  datatype Outcome = AlreadyReconciled | Stale | GetFailed | NotNewer | SetFailed | Written

  const SECOND := 1_000_000_000
  const MAX_AGE := 5 * 60 * SECOND

  predicate IsStale(w: PendingWrite, now: int) {
    now - w.timestamp * SECOND > MAX_AGE
  }

  function ToVersioned(w: PendingWrite): Versioned<Value> {
    Versioned(w.value, w.version, w.timestamp)
  }

  function OutcomeOf(w: PendingWrite, env: Env, cell: Cell<Value>): Outcome {
    if w.reconciled then AlreadyReconciled
    else if IsStale(w, env.now) then Stale
    else if env.getCall.GetError? then GetFailed
    else if env.getCall.Read? && cell.Some? && cell.value.version >= w.version then NotNewer
    else if env.setCall.Answered? && SetScript(cell, ToVersioned(w)).1 then Written
    else SetFailed
  }

  /** The set script ran for a written entry, and for a failed one unless the call did not reach it. */
  function TableAfter(table: map<string, Versioned<Value>>, w: PendingWrite, env: Env): map<string, Versioned<Value>> {
    var cell := Lookup(table, w.key);
    var outcome := OutcomeOf(w, env, cell);
    if outcome.Written? || (outcome.SetFailed? && !env.setCall.NotExecuted?)
    then Put(table, w.key, SetScript(cell, ToVersioned(w)).0) else table
  }

  /** The store and the outcomes after the first n entries. */
  datatype Progress = Progress(table: map<string, Versioned<Value>>, outcomes: seq<Outcome>)

  function Advance(p: Progress, w: PendingWrite, env: Env): Progress {
    Progress(TableAfter(p.table, w, env), p.outcomes + [OutcomeOf(w, env, Lookup(p.table, w.key))])
  }

  function Pass(table: map<string, Versioned<Value>>, pending: seq<PendingWrite>, envs: seq<Env>, n: nat): (p: Progress)
    requires n <= |pending| == |envs|
    ensures |p.outcomes| == n
  {
    if n == 0 then Progress(table, [])
    else Advance(Pass(table, pending, envs, n - 1), pending[n-1], envs[n-1])
  }

  predicate Retried(o: Outcome) {
    o.GetFailed? || o.SetFailed?
  }

  predicate CountsAsSkipped(o: Outcome) {
    o.AlreadyReconciled? || o.NotNewer?
  }

  /** The counters of the error that a pass returns. */
  datatype Tally = Tally(success: nat, skipped: nat, failed: nat)

  function Tallied(t: Tally, o: Outcome): Tally {
    if o.Written? then t.(success := t.success + 1)
    else if CountsAsSkipped(o) then t.(skipped := t.skipped + 1)
    else t.(failed := t.failed + 1)
  }

  function Count(outcomes: seq<Outcome>): (t: Tally)
    ensures t.success + t.skipped + t.failed == |outcomes|
  {
    if outcomes == [] then Tally(0, 0, 0)
    else Tallied(Count(outcomes[..|outcomes|-1]), outcomes[|outcomes|-1])
  }

  /** The entries of a log whose outcome asks for a retry, in order. */
  function Surviving(pending: seq<PendingWrite>, outcomes: seq<Outcome>): seq<PendingWrite>
    requires |pending| == |outcomes|
  {
    if pending == [] then []
    else (if Retried(outcomes[0]) then [pending[0]] else []) + Surviving(pending[1..], outcomes[1..])
  }

  /** The log's flags during the pass, and the final sweep. */
  function Marked(pending: seq<PendingWrite>, outcomes: seq<Outcome>): (r: seq<PendingWrite>)
    requires |outcomes| <= |pending|
    ensures |r| == |pending|
    ensures forall i :: 0 <= i < |r| ==>
      r[i] == pending[i].(reconciled := pending[i].reconciled || (i < |outcomes| && !Retried(outcomes[i])))
  {
    seq(|pending|, i requires 0 <= i < |pending| =>
      pending[i].(reconciled := pending[i].reconciled || (i < |outcomes| && !Retried(outcomes[i]))))
  }

  function Unreconciled(pending: seq<PendingWrite>): (r: seq<PendingWrite>)
    ensures |r| <= |pending|
    ensures forall w :: w in r <==> w in pending && !w.reconciled
  {
    if pending == [] then []
    else (if pending[0].reconciled then [] else [pending[0]]) + Unreconciled(pending[1..])
  }

  lemma {:induction false} UnreconciledInTwo(a: seq<PendingWrite>, b: seq<PendingWrite>)
    ensures Unreconciled(a + b) == Unreconciled(a) + Unreconciled(b)
  {
    if a == [] {
      assert a + b == b;
    } else {
      assert (a + b)[1..] == a[1..] + b;
      UnreconciledInTwo(a[1..], b);
    }
  }

  lemma UnreconciledNext(pending: seq<PendingWrite>, i: nat)
    requires i < |pending|
    ensures Unreconciled(pending[..i+1]) == Unreconciled(pending[..i]) + if pending[i].reconciled then [] else [pending[i]]
  {
    assert pending[..i+1] == pending[..i] + [pending[i]];
    assert [pending[i]][1..] == [];
    UnreconciledInTwo(pending[..i], [pending[i]]);
  }

  /** Entries stand in the order of their versions. */
  ghost predicate Increasing(pending: seq<PendingWrite>) {
    forall i, j :: 0 <= i < j < |pending| ==> pending[i].version < pending[j].version
  }

  lemma {:induction false} SweepKeepsOrder(marked: seq<PendingWrite>)
    requires Increasing(marked)
    ensures Increasing(Unreconciled(marked))
  {
    if marked != [] {
      var rest := Unreconciled(marked[1..]);
      SweepKeepsOrder(marked[1..]);
      if marked[0].reconciled {
        assert Unreconciled(marked) == rest;
      } else {
        forall j | 0 <= j < |rest| ensures marked[0].version < rest[j].version {
          assert rest[j] in marked[1..];
        }
      }
    }
  }

  /** The sweep leaves exactly the entries whose get or set failed, in order and unchanged. */
  lemma {:induction false} SweepLeavesFailures(pending: seq<PendingWrite>, outcomes: seq<Outcome>)
    requires |outcomes| == |pending|
    requires forall i :: 0 <= i < |pending| && pending[i].reconciled ==> outcomes[i].AlreadyReconciled?
    ensures Unreconciled(Marked(pending, outcomes)) == Surviving(pending, outcomes)
  {
    if pending != [] {
      SweepLeavesFailures(pending[1..], outcomes[1..]);
      assert Marked(pending, outcomes)[1..] == Marked(pending[1..], outcomes[1..]);
    }
  }

  lemma {:induction false} PassOutcomes(table: map<string, Versioned<Value>>, pending: seq<PendingWrite>, envs: seq<Env>, n: nat, i: nat)
    requires i < n <= |pending| == |envs|
    ensures Pass(table, pending, envs, n).outcomes[i]
              == OutcomeOf(pending[i], envs[i], Lookup(Pass(table, pending, envs, i).table, pending[i].key))
  {
    if i < n - 1 {
      PassOutcomes(table, pending, envs, n - 1, i);
    }
  }

  /** For every mix of successes, stale entries and failing calls: the counters add up to the log's
      length, and the surviving log is exactly the entries whose get or set failed. */
  lemma PassAccounts(table: map<string, Versioned<Value>>, pending: seq<PendingWrite>, envs: seq<Env>)
    requires |pending| == |envs|
    ensures var outcomes := Pass(table, pending, envs, |pending|).outcomes;
            var t := Count(outcomes);
            && t.success + t.skipped + t.failed == |pending|
            && Unreconciled(Marked(pending, outcomes)) == Surviving(pending, outcomes)
  {
    var outcomes := Pass(table, pending, envs, |pending|).outcomes;
    forall i | 0 <= i < |pending| && pending[i].reconciled ensures outcomes[i].AlreadyReconciled? {
      PassOutcomes(table, pending, envs, |pending|, i);
    }
    SweepLeavesFailures(pending, outcomes);
  }

  // ---------- What a pass reports ----------

  /** The counters are the numbers of outcomes: written; reconciled before or not newer; too old or failed. */
  lemma {:induction false} CountersAreOutcomes(outcomes: seq<Outcome>)
    ensures var t, m := Count(outcomes), multiset(outcomes);
            && t.success == m[Written]
            && t.skipped == m[AlreadyReconciled] + m[NotNewer]
            && t.failed == m[Stale] + m[GetFailed] + m[SetFailed]
  {
    if outcomes != [] {
      var earlier, last := outcomes[..|outcomes|-1], outcomes[|outcomes|-1];
      CountersAreOutcomes(earlier);
      assert outcomes == earlier + [last];
    }
  }

  /** The store as the pass finds it at entry i. */
  function CellAt(table: map<string, Versioned<Value>>, pending: seq<PendingWrite>, envs: seq<Env>, i: nat): Cell<Value>
    requires i < |pending| == |envs|
  {
    Lookup(Pass(table, pending, envs, i).table, pending[i].key)
  }

  /** More than five minutes old, in nanoseconds. */
  predicate TooOld(w: PendingWrite, now: int) {
    now > w.timestamp * 1_000_000_000 + 300_000_000_000
  }

  /** The entry's own call for a newer version does not succeed: its get answers with an error, or its set,
      asked for because the read showed nothing as new, fails, gets no reply or is refused. */
  predicate CallFails(w: PendingWrite, env: Env, cell: Cell<Value>) {
    var newer := cell.Some? && w.version <= cell.value.version;
    env.getCall.GetError? || (!(env.getCall.Read? && newer) && (!env.setCall.Answered? || newer))
  }

  /** The entry is unreconciled and too old, or one of its calls fails. */
  predicate Troubled(table: map<string, Versioned<Value>>, pending: seq<PendingWrite>, envs: seq<Env>, i: nat)
    requires i < |pending| == |envs|
  {
    !pending[i].reconciled && (TooOld(pending[i], envs[i].now) || CallFails(pending[i], envs[i], CellAt(table, pending, envs, i)))
  }

  /** One entry's outcome, told from the entry, the clock, the calls and the store. */
  lemma OutcomeMeans(w: PendingWrite, env: Env, cell: Cell<Value>)
    ensures var o := OutcomeOf(w, env, cell);
            && (o.AlreadyReconciled? <==> w.reconciled)
            && (o.Stale? <==> !w.reconciled && TooOld(w, env.now))
            && (Retried(o) <==> !w.reconciled && !TooOld(w, env.now) && CallFails(w, env, cell))
            && (o.Written? <==> !w.reconciled && !TooOld(w, env.now) && env.getCall != GetError && env.setCall == Answered
                                && (cell.Some? ==> cell.value.version < w.version))
  {
  }

  predicate CountsAsFailed(o: Outcome) {
    o.Stale? || o.GetFailed? || o.SetFailed?
  }

  lemma FailedCounted(outcomes: seq<Outcome>)
    ensures Count(outcomes).failed > 0 <==> exists i: nat :: i < |outcomes| && CountsAsFailed(outcomes[i])
  {
    CountersAreOutcomes(outcomes);
    var m := multiset(outcomes);
    if Count(outcomes).failed > 0 {
      var o := if m[Stale] > 0 then Stale else if m[GetFailed] > 0 then GetFailed else SetFailed;
      assert o in outcomes;
    }
    if i: nat :| i < |outcomes| && CountsAsFailed(outcomes[i]) {
      assert outcomes[i] in m;
    }
  }

  lemma TroubleFails(table: map<string, Versioned<Value>>, pending: seq<PendingWrite>, envs: seq<Env>, i: nat)
    requires i < |pending| == |envs|
    ensures Troubled(table, pending, envs, i) <==> CountsAsFailed(Pass(table, pending, envs, |envs|).outcomes[i])
  {
    PassOutcomes(table, pending, envs, |pending|, i);
    OutcomeMeans(pending[i], envs[i], CellAt(table, pending, envs, i));
  }

  /** A pass reports an error if and only if some entry was in trouble. */
  lemma PassReportsExactly(table: map<string, Versioned<Value>>, pending: seq<PendingWrite>, envs: seq<Env>)
    requires |pending| == |envs|
    ensures Count(Pass(table, pending, envs, |envs|).outcomes).failed > 0 <==>
            exists i: nat :: i < |pending| && Troubled(table, pending, envs, i)
  {
    var outcomes := Pass(table, pending, envs, |envs|).outcomes;
    FailedCounted(outcomes);
    forall i: nat | i < |pending| ensures Troubled(table, pending, envs, i) <==> CountsAsFailed(outcomes[i]) {
      TroubleFails(table, pending, envs, i);
    }
  }

  /** An entry of a log without duplicates stays in it after the pass if and only if it was unreconciled, not
      too old, and one of its calls failed. */
  lemma EntryStaysExactly(table: map<string, Versioned<Value>>, pending: seq<PendingWrite>, envs: seq<Env>, i: nat)
    requires i < |pending| == |envs| && Increasing(pending)
    ensures pending[i] in Unreconciled(Marked(pending, Pass(table, pending, envs, |envs|).outcomes)) <==>
            !pending[i].reconciled && !TooOld(pending[i], envs[i].now) && CallFails(pending[i], envs[i], CellAt(table, pending, envs, i))
  {
    var outcomes := Pass(table, pending, envs, |envs|).outcomes;
    var marked := Marked(pending, outcomes);
    PassOutcomes(table, pending, envs, |pending|, i);
    OutcomeMeans(pending[i], envs[i], CellAt(table, pending, envs, i));
    if pending[i] in marked {
      var k :| 0 <= k < |marked| && marked[k] == pending[i];
      assert k == i;
    }
    assert marked[i] in marked;
  }

  // ---------- Highest version wins ----------

  /** An entry the pass has to bring to the store. */
  predicate Fresh(pending: seq<PendingWrite>, envs: seq<Env>, n: nat, key: string, i: int)
    requires n <= |pending| == |envs|
  {
    0 <= i < n && pending[i].key == key && !pending[i].reconciled && !IsStale(pending[i], envs[i].now)
  }

  predicate NoStoreErrors(envs: seq<Env>) {
    forall i :: 0 <= i < |envs| ==> envs[i].getCall.Read? && envs[i].setCall.Answered?
  }

  /** A fresh entry that the pass brings to the store, or finds covered there: its get does not end in
      an error and its set, if asked for, reaches the store. */
  predicate Delivered(pending: seq<PendingWrite>, envs: seq<Env>, n: nat, key: string, i: int)
    requires n <= |pending| == |envs|
  {
    Fresh(pending, envs, n, key, i) && !envs[i].getCall.GetError? && !envs[i].setCall.NotExecuted?
  }

  /** after is the highest version among before and the delivered entries of the key; the store's own
      entry wins ties, and so does the earlier of two entries. */
  ghost predicate HighestWins(before: Cell<Value>, after: Cell<Value>, pending: seq<PendingWrite>, envs: seq<Env>, n: nat, key: string)
    requires n <= |pending| == |envs|
  {
    && (before.Some? ==> after.Some? && before.value.version <= after.value.version)
    && (forall i :: Delivered(pending, envs, n, key, i) ==> after.Some? && pending[i].version <= after.value.version)
    && (after == before || exists i :: WinsAt(before, after, pending, envs, n, key, i))
  }

  /** after is the delivered entry i, newer than before and than every earlier delivered entry. */
  ghost predicate WinsAt(before: Cell<Value>, after: Cell<Value>, pending: seq<PendingWrite>, envs: seq<Env>, n: nat, key: string, i: int)
    requires n <= |pending| == |envs|
  {
    && Delivered(pending, envs, n, key, i) && after == Some(ToVersioned(pending[i]))
    && (before.Some? ==> before.value.version < pending[i].version)
    && forall j :: Delivered(pending, envs, n, key, j) && j < i ==> pending[j].version < pending[i].version
  }

  /** What entry n-1 does to one key. */
  lemma EntryMovesKey(table: map<string, Versioned<Value>>, pending: seq<PendingWrite>, envs: seq<Env>, n: nat, key: string)
    requires 0 < n <= |pending| == |envs|
    ensures var mid, after := Lookup(Pass(table, pending, envs, n - 1).table, key), Lookup(Pass(table, pending, envs, n).table, key);
            after == if Delivered(pending, envs, n, key, n - 1) && (mid.Some? ==> mid.value.version < pending[n-1].version)
                     then Some(ToVersioned(pending[n-1])) else mid
  {
  }

  /** The delivered entries among the first n are those among the first n-1, and perhaps entry n-1. */
  lemma DeliveredNext(pending: seq<PendingWrite>, envs: seq<Env>, n: nat, key: string)
    requires 0 < n <= |pending| == |envs|
    ensures forall i :: Delivered(pending, envs, n, key, i) <==>
              Delivered(pending, envs, n - 1, key, i) || (i == n - 1 && Delivered(pending, envs, n, key, n - 1))
  {
  }

  /** For every mix of failing, lost and answered calls, a pass refines "per key, the highest version
      wins" over the entries it delivers. */
  lemma {:induction false} PassHighestWins(table: map<string, Versioned<Value>>, pending: seq<PendingWrite>, envs: seq<Env>, n: nat, key: string)
    requires n <= |pending| == |envs|
    ensures HighestWins(Lookup(table, key), Lookup(Pass(table, pending, envs, n).table, key), pending, envs, n, key)
  {
    if n > 0 {
      PassHighestWins(table, pending, envs, n - 1, key);
      EntryMovesKey(table, pending, envs, n, key);
      DeliveredNext(pending, envs, n, key);
      var before, mid := Lookup(table, key), Lookup(Pass(table, pending, envs, n - 1).table, key);
      var after := Lookup(Pass(table, pending, envs, n).table, key);
      HighestNext(before, mid, after, pending, envs, n, key);
    }
  }

  lemma HighestNext(before: Cell<Value>, mid: Cell<Value>, after: Cell<Value>, pending: seq<PendingWrite>, envs: seq<Env>, n: nat, key: string)
    requires 0 < n <= |pending| == |envs|
    requires HighestWins(before, mid, pending, envs, n - 1, key)
    requires after == if Delivered(pending, envs, n, key, n - 1) && (mid.Some? ==> mid.value.version < pending[n-1].version)
                      then Some(ToVersioned(pending[n-1])) else mid
    requires forall i :: Delivered(pending, envs, n, key, i) <==>
               Delivered(pending, envs, n - 1, key, i) || (i == n - 1 && Delivered(pending, envs, n, key, n - 1))
    ensures HighestWins(before, after, pending, envs, n, key)
  {
    if after != mid {
      assert WinsAt(before, after, pending, envs, n, key, n - 1);
    } else if mid != before {
      var i :| WinsAt(before, mid, pending, envs, n - 1, key, i);
      assert WinsAt(before, after, pending, envs, n, key, i);
    }
  }

  /** Whatever fails, a pass only moves a key to a strictly newer version. */
  lemma PassFollows(table: map<string, Versioned<Value>>, pending: seq<PendingWrite>, envs: seq<Env>, n: nat, key: string)
    requires n <= |pending| == |envs|
    ensures Follows(Lookup(table, key), Lookup(Pass(table, pending, envs, n).table, key))
  {
    PassHighestWins(table, pending, envs, n, key);
  }

  /** Without store errors every fresh entry is delivered, so each key ends at the highest version among
      its store entry and all its fresh pending writes. */
  lemma PassWithoutErrors(table: map<string, Versioned<Value>>, pending: seq<PendingWrite>, envs: seq<Env>, key: string)
    requires |pending| == |envs| && NoStoreErrors(envs)
    ensures var before, after := Lookup(table, key), Lookup(Pass(table, pending, envs, |envs|).table, key);
            && (forall i :: Fresh(pending, envs, |envs|, key, i) ==> after.Some? && pending[i].version <= after.value.version)
            && (after == before || exists i :: Fresh(pending, envs, |envs|, key, i) && after == Some(ToVersioned(pending[i]))
                                     && (before.Some? ==> before.value.version < pending[i].version)
                                     && forall j :: Fresh(pending, envs, |envs|, key, j) && j < i ==> pending[j].version < pending[i].version)
  {
    PassHighestWins(table, pending, envs, |envs|, key);
    assert forall i :: Fresh(pending, envs, |envs|, key, i) ==> Delivered(pending, envs, |envs|, key, i);
    var before, after := Lookup(table, key), Lookup(Pass(table, pending, envs, |envs|).table, key);
    if after != before {
      var i :| WinsAt(before, after, pending, envs, |envs|, key, i);
      assert Fresh(pending, envs, |envs|, key, i);
    }
  }

  /** A pass whose store calls all answer leaves an empty log. */
  lemma NoErrorsDrain(table: map<string, Versioned<Value>>, pending: seq<PendingWrite>, envs: seq<Env>)
    requires |pending| == |envs| && NoStoreErrors(envs)
    ensures Surviving(pending, Pass(table, pending, envs, |pending|).outcomes) == []
  {
    var outcomes := Pass(table, pending, envs, |pending|).outcomes;
    forall i | 0 <= i < |pending| ensures !Retried(outcomes[i]) {
      PassOutcomes(table, pending, envs, |pending|, i);
    }
    NothingSurvives(pending, outcomes);
  }

  lemma {:induction false} NothingSurvives(pending: seq<PendingWrite>, outcomes: seq<Outcome>)
    requires |pending| == |outcomes| && forall i :: 0 <= i < |pending| ==> !Retried(outcomes[i])
    ensures Surviving(pending, outcomes) == []
  {
    if pending != [] {
      NothingSurvives(pending[1..], outcomes[1..]);
    }
  }
}
