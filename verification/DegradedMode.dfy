/**
 The degraded-mode manager of control_plane/resilience: an LRU cache, a bounded log of versioned
 writes, and the recovery that merges the log into the store.
 */
module DegradedMode {
  import opened Wrappers
  import opened VersionedStore
  import opened Reconciliation

  datatype CacheEntry = CacheEntry(value: Value, lastAccess: int)

  /** The manager's fields. */
  datatype Mode = Mode(
    localCache: map<string, CacheEntry>,
    cacheSize: int,
    maxCacheSize: nat,
    pendingWrites: seq<PendingWrite>,
    maxPendingWrites: nat,
    currentVersion: int,
    redisAvailable: bool,
    dbAvailable: bool,
    natsAvailable: bool,
    degradedModeActive: bool)

  /** The log after the oldest unreconciled write, if there is one, is dropped. */
  function DropOldest(pending: seq<PendingWrite>): (r: seq<PendingWrite>)
    ensures r == pending || |r| == |pending| - 1
  {
    if pending == [] then []
    else if !pending[0].reconciled then pending[1..]
    else [pending[0]] + DropOldest(pending[1..])
  }

  lemma {:induction false} DropsFirstUnreconciled(pending: seq<PendingWrite>, i: nat)
    requires i <= |pending| && forall j :: 0 <= j < i ==> pending[j].reconciled
    requires i < |pending| ==> !pending[i].reconciled
    ensures DropOldest(pending) == if i < |pending| then pending[..i] + pending[i+1..] else pending
  {
    if 0 < i {
      DropsFirstUnreconciled(pending[1..], i - 1);
    }
  }

  function AfterBound(m: Mode): seq<PendingWrite> {
    if |m.pendingWrites| >= m.maxPendingWrites then DropOldest(m.pendingWrites) else m.pendingWrites
  }

  /** The key the eviction loop may end with: some key of least last access, or the empty string
      when there is no key. Ties depend on the iteration order of the map. */
  ghost predicate IsOldest(cache: map<string, CacheEntry>, key: string) {
    if cache == map[] then key == ""
    else key in cache && forall k :: k in cache ==> cache[key].lastAccess <= cache[k].lastAccess
  }

  /** A full cache first gives up its oldest key, unless that is the empty string. */
  function AfterEviction(m: Mode, oldest: string): Mode {
    if m.cacheSize >= m.maxCacheSize && oldest != ""
    then m.(localCache := m.localCache - {oldest}, cacheSize := m.cacheSize - 1)
    else m
  }

  /** The cache with the new value, counted if its key is new. */
  function Stored(m: Mode, key: string, value: Value, now: int): Mode {
    m.(localCache := m.localCache[key := CacheEntry(value, now)],
       cacheSize := if key in m.localCache then m.cacheSize else m.cacheSize + 1)
  }

  /** The log with the new write under the next version. */
  function Logged(m: Mode, key: string, value: Value, ttl: int, unixNow: int): Mode {
    m.(currentVersion := m.currentVersion + 1,
       pendingWrites := m.pendingWrites + [PendingWrite(key, value, unixNow, ttl, m.currentVersion + 1, false)])
  }

  /** SetInCacheWithTTL; now is the clock and unixNow its reading in whole seconds. */
  function AfterSet(m: Mode, key: string, value: Value, ttl: int, now: int, unixNow: int, oldest: string): Mode {
    Logged(Stored(AfterEviction(m.(pendingWrites := AfterBound(m)), oldest), key, value, now), key, value, ttl, unixNow)
  }

  function AfterGet(m: Mode, key: string, now: int): Mode {
    if key in m.localCache
    then m.(localCache := m.localCache[key := m.localCache[key].(lastAccess := now)]) else m
  }

  function AfterClear(m: Mode): Mode {
    m.(localCache := map[], cacheSize := 0)
  }

  function CheckDegraded(m: Mode): Mode {
    if m.redisAvailable && m.dbAvailable && m.natsAvailable then m.(degradedModeActive := false) else m
  }

  function AfterRedisDown(m: Mode): Mode {
    if m.redisAvailable then m.(redisAvailable := false, degradedModeActive := true) else m
  }

  function AfterRedisUp(m: Mode): Mode {
    CheckDegraded(m.(redisAvailable := true))
  }

  function AfterDBDown(m: Mode): Mode {
    if m.dbAvailable then m.(dbAvailable := false, degradedModeActive := true) else m
  }

  function AfterDBUp(m: Mode): Mode {
    if m.dbAvailable then m else CheckDegraded(m.(dbAvailable := true))
  }

  /** The log after a whole pass. */
  function LogAfterPass(pending: seq<PendingWrite>, table: map<string, Versioned<Value>>, envs: seq<Env>): seq<PendingWrite>
    requires |envs| == |pending|
  {
    Unreconciled(Marked(pending, Pass(table, pending, envs, |pending|).outcomes))
  }

  function AfterPass(m: Mode, table: map<string, Versioned<Value>>, envs: seq<Env>): Mode
    requires |envs| == |m.pendingWrites|
  {
    m.(pendingWrites := LogAfterPass(m.pendingWrites, table, envs))
  }

  /** What a pass answers: nil if no entry was in trouble, else how many outcomes there were of each kind. */
  ghost predicate Reported(error: Option<Tally>, table: map<string, Versioned<Value>>, pending: seq<PendingWrite>, envs: seq<Env>)
    requires |envs| == |pending|
  {
    var m := multiset(Pass(table, pending, envs, |envs|).outcomes);
    && (error.None? <==> forall i: nat :: i < |pending| ==> !Troubled(table, pending, envs, i))
    && (error.Some? ==>
          error.value == Tally(m[Written], m[AlreadyReconciled] + m[NotNewer], m[Stale] + m[GetFailed] + m[SetFailed]))
  }

  lemma TallyIsReport(tally: Tally, table: map<string, Versioned<Value>>, pending: seq<PendingWrite>, envs: seq<Env>)
    requires |envs| == |pending| && tally == Count(Pass(table, pending, envs, |envs|).outcomes)
    ensures Reported(if tally.failed > 0 then Some(tally) else None, table, pending, envs)
  {
    PassReportsExactly(table, pending, envs);
    CountersAreOutcomes(Pass(table, pending, envs, |envs|).outcomes);
  }

  /** Marking by snapshot index: whatever write is at that place by now, if any. */
  function MarkedAt(pending: seq<PendingWrite>, i: nat): seq<PendingWrite> {
    if i < |pending| then pending[i := pending[i].(reconciled := true)] else pending
  }

  /** One more entry: the counter and the mark it makes. */
  lemma EntryAdvances(p: Progress, pending: seq<PendingWrite>, env: Env)
    requires |p.outcomes| < |pending|
    ensures var i := |p.outcomes|;
            var q, o := Advance(p, pending[i], env), OutcomeOf(pending[i], env, Lookup(p.table, pending[i].key));
            && Count(q.outcomes) == Tallied(Count(p.outcomes), o)
            && Marked(pending, q.outcomes) ==
               if pending[i].reconciled || Retried(o) then Marked(pending, p.outcomes) else MarkedAt(Marked(pending, p.outcomes), i)
  {
    var i := |p.outcomes|;
    var o := OutcomeOf(pending[i], env, Lookup(p.table, pending[i].key));
    CountAppends(p.outcomes, o);
    if pending[i].reconciled || Retried(o) { MarksNothing(pending, p.outcomes, o); }
    else { MarksOne(pending, p.outcomes, o); }
  }

  lemma CountAppends(outcomes: seq<Outcome>, o: Outcome)
    ensures Count(outcomes + [o]) == Tallied(Count(outcomes), o)
  {
    assert (outcomes + [o])[..|outcomes|] == outcomes;
  }

  lemma MarksNothing(pending: seq<PendingWrite>, outcomes: seq<Outcome>, o: Outcome)
    requires |outcomes| < |pending| && (pending[|outcomes|].reconciled || Retried(o))
    ensures Marked(pending, outcomes + [o]) == Marked(pending, outcomes)
  {
  }

  lemma MarksOne(pending: seq<PendingWrite>, outcomes: seq<Outcome>, o: Outcome)
    requires |outcomes| < |pending| && !Retried(o)
    ensures Marked(pending, outcomes + [o]) == MarkedAt(Marked(pending, outcomes), |outcomes|)
  {
  }

  class DegradedModeManager {
    var localCache: map<string, CacheEntry>
    var cacheSize: int
    const maxCacheSize: nat
    var pendingWrites: seq<PendingWrite>
    const maxPendingWrites: nat
    var currentVersion: int
    var redisAvailable: bool
    var dbAvailable: bool
    var natsAvailable: bool
    var degradedModeActive: bool

    ghost function View(): Mode
      reads this
    {
      Mode(localCache, cacheSize, maxCacheSize, pendingWrites, maxPendingWrites, currentVersion,
           redisAvailable, dbAvailable, natsAvailable, degradedModeActive)
    }

    constructor ()
      ensures View() == Mode(map[], 0, 10000, [], 10000, 0, true, true, true, false)
    {
      localCache, cacheSize, maxCacheSize := map[], 0, 10000;
      pendingWrites, maxPendingWrites, currentVersion := [], 10000, 0;
      redisAvailable, dbAvailable, natsAvailable, degradedModeActive := true, true, true, false;
    }

    method MarkRedisUnavailable()
      modifies this
      ensures View() == AfterRedisDown(old(View()))
    {
      if redisAvailable {
        redisAvailable, degradedModeActive := false, true;
      }
    }

    method MarkRedisAvailable()
      modifies this
      ensures View() == if old(redisAvailable) then old(View()) else AfterRedisUp(old(View()))
    {
      if !redisAvailable {
        redisAvailable := true;
        CheckDegradedMode();
      }
    }

    method MarkDBUnavailable()
      modifies this
      ensures View() == AfterDBDown(old(View()))
    {
      if dbAvailable {
        dbAvailable, degradedModeActive := false, true;
      }
    }

    method MarkDBAvailable()
      modifies this
      ensures View() == AfterDBUp(old(View()))
    {
      if !dbAvailable {
        dbAvailable := true;
        CheckDegradedMode();
      }
    }

    method CheckDegradedMode()
      modifies this
      ensures View() == CheckDegraded(old(View()))
    {
      if redisAvailable && dbAvailable && natsAvailable {
        degradedModeActive := false;
      }
    }

    method GetFromCache(key: string, now: int) returns (value: Option<Value>)
      modifies this
      ensures View() == AfterGet(old(View()), key, now)
      ensures value == if key in old(localCache) then Some(old(localCache)[key].value) else None
    {
      if key !in localCache {
        return None;
      }
      localCache := localCache[key := localCache[key].(lastAccess := now)];
      value := Some(localCache[key].value);
    }

    /** The eviction scan: visits the keys in any order and keeps the first least access time. */
    method FindOldest() returns (oldestKey: string)
      ensures IsOldest(localCache, oldestKey)
    {
      oldestKey := "";
      var oldestTime, first := 0, true;
      var rest := localCache.Keys;
      while rest != {}
        invariant rest <= localCache.Keys
        invariant first <==> rest == localCache.Keys
        invariant first ==> oldestKey == ""
        invariant !first ==> oldestKey in localCache && oldestTime == localCache[oldestKey].lastAccess
        invariant !first ==> forall k :: k in localCache && k !in rest ==> oldestTime <= localCache[k].lastAccess
      {
        var k :| k in rest;
        if first || localCache[k].lastAccess < oldestTime {
          oldestKey, oldestTime, first := k, localCache[k].lastAccess, false;
        }
        rest := rest - {k};
      }
    }

    method SetInCacheWithTTL(key: string, value: Value, ttl: int, now: int, unixNow: int) returns (ghost oldest: string)
      modifies this
      ensures old(cacheSize >= maxCacheSize) ==> IsOldest(old(localCache), oldest)
      ensures View() == AfterSet(old(View()), key, value, ttl, now, unixNow, oldest)
    {
      if |pendingWrites| >= maxPendingWrites {
        DropOldestUnreconciled();
      }
      oldest := EvictOldest();
      Store(key, value, now);
      currentVersion := currentVersion + 1;
      pendingWrites := pendingWrites + [PendingWrite(key, value, unixNow, ttl, currentVersion, false)];
    }

    method Store(key: string, value: Value, now: int)
      modifies this
      ensures View() == Stored(old(View()), key, value, now)
    {
      if key !in localCache {
        cacheSize := cacheSize + 1;
      }
      localCache := localCache[key := CacheEntry(value, now)];
    }

    method EvictOldest() returns (ghost oldest: string)
      modifies this
      ensures old(cacheSize >= maxCacheSize) ==> IsOldest(old(localCache), oldest)
      ensures View() == AfterEviction(old(View()), oldest)
    {
      oldest := "";
      if cacheSize >= maxCacheSize {
        var oldestKey := FindOldest();
        oldest := oldestKey;
        if oldestKey != "" {
          localCache := localCache - {oldestKey};
          cacheSize := cacheSize - 1;
        }
      }
    }

    method DropOldestUnreconciled()
      modifies this`pendingWrites
      ensures pendingWrites == DropOldest(old(pendingWrites))
    {
      var i := 0;
      while i < |pendingWrites|
        invariant 0 <= i <= |pendingWrites| && pendingWrites == old(pendingWrites)
        invariant forall j :: 0 <= j < i ==> pendingWrites[j].reconciled
      {
        if !pendingWrites[i].reconciled {
          DropsFirstUnreconciled(pendingWrites, i);
          pendingWrites := pendingWrites[..i] + pendingWrites[i+1..];
          return;
        }
        i := i + 1;
      }
      DropsFirstUnreconciled(pendingWrites, i);
    }

    method ClearCache()
      modifies this
      ensures View() == AfterClear(old(View()))
    {
      localCache := map[];
      cacheSize := 0;
    }

    /** A pass that no other call interleaves with. envs says what each entry meets. It answers nil if and
        only if no unreconciled entry was too old or had a failing call, and else the counters. */
    method ReconcilePendingWrites(store: RedisHashes<Value>, envs: seq<Env>) returns (error: Option<Tally>)
      requires |envs| == |pendingWrites|
      modifies this`pendingWrites, store
      ensures pendingWrites == LogAfterPass(old(pendingWrites), old(store.table), envs)
      ensures store.table == Pass(old(store.table), old(pendingWrites), envs, |envs|).table
      ensures Reported(error, old(store.table), old(pendingWrites), envs)
    {
      if |pendingWrites| == 0 {
        return None;
      }
      ghost var table, pending := store.table, pendingWrites;
      var tally := ReconcileEntries(store, envs);
      Sweep();
      error := if tally.failed > 0 then Some(tally) else None;
      TallyIsReport(tally, table, pending, envs);
    }

    /** The loop over the snapshot. */
    method ReconcileEntries(store: RedisHashes<Value>, envs: seq<Env>) returns (tally: Tally)
      requires |envs| == |pendingWrites|
      modifies this`pendingWrites, store
      ensures var p := Pass(old(store.table), old(pendingWrites), envs, |envs|);
              && pendingWrites == Marked(old(pendingWrites), p.outcomes)
              && store.table == p.table
              && tally == Count(p.outcomes)
    {
      var pending := pendingWrites;
      ghost var table := store.table;
      tally := Tally(0, 0, 0);
      ghost var p := Pass(table, pending, envs, 0);
      for i := 0 to |pending|
        invariant p == Pass(table, pending, envs, i) && store.table == p.table
        invariant pendingWrites == Marked(pending, p.outcomes)
        invariant Count(p.outcomes) == tally
      {
        tally, p := ReconcileNext(store, pending, envs[i], tally, p);
      }
    }

    /** One round of the loop: the entry, and its counter. */
    method ReconcileNext(store: RedisHashes<Value>, pending: seq<PendingWrite>, env: Env, tally: Tally, ghost p: Progress)
      returns (next: Tally, ghost q: Progress)
      requires |p.outcomes| < |pending| && pendingWrites == Marked(pending, p.outcomes) && store.table == p.table && tally == Count(p.outcomes)
      modifies this`pendingWrites, store
      ensures q == Advance(p, pending[|p.outcomes|], env)
      ensures pendingWrites == Marked(pending, q.outcomes) && store.table == q.table && next == Count(q.outcomes)
    {
      var i := tally.success + tally.skipped + tally.failed;
      EntryAdvances(p, pending, env);
      var outcome := ReconcileEntry(store, i, pending[i], env);
      q := Advance(p, pending[i], env);
      next := CountOutcome(tally, outcome);
    }

    method CountOutcome(tally: Tally, outcome: Outcome) returns (next: Tally)
      ensures next == Tallied(tally, outcome)
    {
      if outcome.Written? {
        next := tally.(success := tally.success + 1);
      } else if CountsAsSkipped(outcome) {
        next := tally.(skipped := tally.skipped + 1);
      } else {
        next := tally.(failed := tally.failed + 1);
      }
    }

    /** The body of the loop for the snapshot entry i. */
    method ReconcileEntry(store: RedisHashes<Value>, i: nat, write: PendingWrite, env: Env) returns (outcome: Outcome)
      modifies this`pendingWrites, store
      ensures outcome == OutcomeOf(write, env, Lookup(old(store.table), write.key))
      ensures store.table == TableAfter(old(store.table), write, env)
      ensures pendingWrites ==
              if write.reconciled || Retried(outcome) then old(pendingWrites) else MarkedAt(old(pendingWrites), i)
    {
      if write.reconciled {
        return AlreadyReconciled;
      }
      if env.now - write.timestamp * SECOND > MAX_AGE {
        MarkReconciled(i);
        return Stale;
      }
      if env.getCall.GetError? {
        return GetFailed;
      }
      var existing := store.GetVersioned(write.key, env.getCall.ReadsAsMissing?);
      if existing.Some? && existing.value.version >= write.version {
        MarkReconciled(i);
        return NotNewer;
      }
      if env.setCall.NotExecuted? {
        return SetFailed;
      }
      var wasSet := store.SetVersioned(write.key, Versioned(write.value, write.version, write.timestamp));
      if env.setCall.ReplyLost? || !wasSet {
        return SetFailed;
      }
      MarkReconciled(i);
      outcome := Written;
    }

    method MarkReconciled(i: nat)
      modifies this`pendingWrites
      ensures pendingWrites == MarkedAt(old(pendingWrites), i)
    {
      if i < |pendingWrites| {
        pendingWrites := pendingWrites[i := pendingWrites[i].(reconciled := true)];
      }
    }

    method Sweep()
      modifies this`pendingWrites
      ensures pendingWrites == Unreconciled(old(pendingWrites))
    {
      var unreconciled := [];
      ghost var log := pendingWrites;
      for i := 0 to |pendingWrites|
        invariant pendingWrites == log
        invariant unreconciled == Unreconciled(log[..i])
      {
        UnreconciledNext(log, i);
        if !pendingWrites[i].reconciled {
          unreconciled := unreconciled + [pendingWrites[i]];
        }
      }
      assert log[..|log|] == log;
      pendingWrites := unreconciled;
    }

    method MarkRedisAvailableWithReconciliation(store: RedisHashes<Value>, envs: seq<Env>) returns (error: Option<Tally>)
      requires |envs| == |pendingWrites|
      modifies this, store
      ensures View() == if old(redisAvailable) then AfterRedisUp(old(View()))
                        else AfterPass(AfterRedisUp(old(View())), old(store.table), envs)
      ensures old(redisAvailable) ==> store.table == old(store.table) && error == None
      ensures !old(redisAvailable) ==>
                var p := Pass(old(store.table), old(pendingWrites), envs, |envs|);
                && store.table == p.table
                && Reported(error, old(store.table), old(pendingWrites), envs)
    {
      var wasUnavailable := !redisAvailable;
      redisAvailable := true;
      CheckDegradedMode();
      error := None;
      if wasUnavailable {
        error := ReconcilePendingWrites(store, envs);
      }
    }
  }
}
