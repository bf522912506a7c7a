/**
 Every run of the degraded-mode manager: local writes, reads, clears, outages, recoveries and
 whole reconciliation passes, while other nodes write to the store.
 */
module DegradedRuns {
  import opened Wrappers
  import opened VersionedStore
  import opened Reconciliation
  import opened DegradedMode

  datatype Op =
    | Write(key: string, value: Value, ttl: int, now: int, unixNow: int, oldest: string)
    | Read(key: string, now: int)
    | Clear
    | RedisDown
    | RedisUp
    | DBDown
    | DBUp
    | Reconcile(envs: seq<Env>)
    | Recover(envs: seq<Env>)
    | OtherNode(key: string, v: Versioned<Value>)

  datatype LocalWrite = LocalWrite(key: string, value: Value, ttl: int, unixNow: int)

  /** The manager, the store, and every local write so far, oldest first. */
  datatype State = State(mode: Mode, table: map<string, Versioned<Value>>, writes: seq<LocalWrite>)

  ghost predicate Init(s: State) {
    && s.mode.localCache == map[] && s.mode.cacheSize == 0 && s.mode.maxCacheSize > 0
    && s.mode.pendingWrites == [] && s.mode.maxPendingWrites > 0 && s.mode.currentVersion == 0
    && s.mode.redisAvailable && s.mode.dbAvailable && s.mode.natsAvailable && !s.mode.degradedModeActive
    && s.writes == []
  }

  ghost predicate Enabled(s: State, op: Op) {
    match op
    case Write(_, _, _, _, _, oldest) => s.mode.cacheSize >= s.mode.maxCacheSize ==> IsOldest(s.mode.localCache, oldest)
    case Reconcile(envs) => |envs| == |s.mode.pendingWrites|
    case Recover(envs) => |envs| == |s.mode.pendingWrites|
    case _ => true
  }

  function Reconciled(s: State, envs: seq<Env>): State
    requires |envs| == |s.mode.pendingWrites|
  {
    s.(mode := AfterPass(s.mode, s.table, envs), table := Pass(s.table, s.mode.pendingWrites, envs, |envs|).table)
  }

  ghost function Apply(s: State, op: Op): State
    requires Enabled(s, op)
  {
    match op
    case Write(key, value, ttl, now, unixNow, oldest) =>
      s.(mode := AfterSet(s.mode, key, value, ttl, now, unixNow, oldest), writes := s.writes + [LocalWrite(key, value, ttl, unixNow)])
    case Read(key, now) => s.(mode := AfterGet(s.mode, key, now))
    case Clear => s.(mode := AfterClear(s.mode))
    case RedisDown => s.(mode := AfterRedisDown(s.mode))
    case RedisUp => if s.mode.redisAvailable then s else s.(mode := AfterRedisUp(s.mode))
    case DBDown => s.(mode := AfterDBDown(s.mode))
    case DBUp => s.(mode := AfterDBUp(s.mode))
    case Reconcile(envs) => Reconciled(s, envs)
    case Recover(envs) =>
      var up := s.(mode := AfterRedisUp(s.mode));
      if s.mode.redisAvailable then up else Reconciled(up, envs)
    case OtherNode(key, v) => s.(table := Put(s.table, key, SetScript(Lookup(s.table, key), v).0))
  }

  ghost predicate IsRun(states: seq<State>, ops: seq<Op>) {
    && |states| == |ops| + 1
    && Init(states[0])
    && forall i {:trigger ops[i]} :: 0 <= i < |ops| ==> Enabled(states[i], ops[i]) && states[i+1] == Apply(states[i], ops[i])
  }

  /** The local write that a log entry stands for. */
  function ToLocal(w: PendingWrite): LocalWrite {
    LocalWrite(w.key, w.value, w.ttl, w.timestamp)
  }

  /** The position of the newest local write to a key. */
  function Newest(writes: seq<LocalWrite>, key: string): (r: Option<nat>)
    ensures r.Some? ==> r.value < |writes| && writes[r.value].key == key
    ensures r.Some? ==> forall j :: r.value < j < |writes| ==> writes[j].key != key
    ensures r.None? ==> forall j :: 0 <= j < |writes| ==> writes[j].key != key
  {
    if writes == [] then None
    else if writes[|writes|-1].key == key then Some(|writes| - 1)
    else Newest(writes[..|writes|-1], key)
  }

  // ---------- The inductive invariant, by component ----------

  ghost predicate CacheInv(cache: map<string, CacheEntry>, size: int, max: int) {
    size == |cache| && max > 0
  }

  /** What holds as long as nothing is cached under the empty string. */
  ghost predicate CacheBound(cache: map<string, CacheEntry>, max: int) {
    |cache| <= max && "" !in cache
  }

  ghost predicate LogInv(pending: seq<PendingWrite>, max: int, version: int) {
    && |pending| <= max && max > 0
    && (forall i :: 0 <= i < |pending| ==> !pending[i].reconciled && 1 <= pending[i].version <= version)
    && Increasing(pending)
  }

  /** The write of version v is the v-th local write. */
  ghost predicate LogMatchesWrites(pending: seq<PendingWrite>, writes: seq<LocalWrite>) {
    forall i :: 0 <= i < |pending| ==>
      1 <= pending[i].version <= |writes| && writes[pending[i].version - 1] == ToLocal(pending[i])
  }

  ghost predicate CacheMatchesWrites(cache: map<string, CacheEntry>, writes: seq<LocalWrite>) {
    forall k :: k in cache ==> Newest(writes, k).Some? && writes[Newest(writes, k).value].value == cache[k].value
  }

  ghost predicate FlagsInv(m: Mode) {
    m.degradedModeActive <==> !(m.redisAvailable && m.dbAvailable && m.natsAvailable)
  }

  ghost predicate Inv(s: State) {
    && CacheInv(s.mode.localCache, s.mode.cacheSize, s.mode.maxCacheSize)
    && LogInv(s.mode.pendingWrites, s.mode.maxPendingWrites, s.mode.currentVersion)
    && s.mode.currentVersion == |s.writes|
    && LogMatchesWrites(s.mode.pendingWrites, s.writes)
    && CacheMatchesWrites(s.mode.localCache, s.writes)
    && FlagsInv(s.mode)
  }

  lemma EvictionKeepsCount(m: Mode, oldest: string)
    requires CacheInv(m.localCache, m.cacheSize, m.maxCacheSize)
    requires m.cacheSize >= m.maxCacheSize ==> IsOldest(m.localCache, oldest)
    ensures var e := AfterEviction(m, oldest);
            && e.cacheSize == |e.localCache| && e.localCache.Keys <= m.localCache.Keys
            && (CacheBound(m.localCache, m.maxCacheSize) ==> |e.localCache| < m.maxCacheSize)
  {
    if m.cacheSize >= m.maxCacheSize && oldest != "" {
      var left := m.localCache - {oldest};
      assert left.Keys == m.localCache.Keys - {oldest};
      assert |left| == |left.Keys| && |m.localCache| == |m.localCache.Keys|;
    }
  }

  lemma StoringKeepsCount(cache: map<string, CacheEntry>, key: string, entry: CacheEntry)
    ensures |cache[key := entry]| == if key in cache then |cache| else |cache| + 1
  {
    var more := cache[key := entry];
    assert more.Keys == cache.Keys + {key};
    assert |more| == |more.Keys| && |cache| == |cache.Keys|;
  }

  /** The cache after a write, by component. */
  lemma WriteKeepsCache(m: Mode, key: string, entry: CacheEntry, oldest: string)
    requires CacheInv(m.localCache, m.cacheSize, m.maxCacheSize)
    requires m.cacheSize >= m.maxCacheSize ==> IsOldest(m.localCache, oldest)
    ensures var e := AfterEviction(m, oldest);
            && CacheInv(e.localCache[key := entry], if key in e.localCache then e.cacheSize else e.cacheSize + 1, m.maxCacheSize)
            && (key != "" && CacheBound(m.localCache, m.maxCacheSize) ==> CacheBound(e.localCache[key := entry], m.maxCacheSize))
  {
    EvictionKeepsCount(m, oldest);
    StoringKeepsCount(AfterEviction(m, oldest).localCache, key, entry);
  }

  /** Nothing is reconciled between passes, so the bound always drops the first write. */
  lemma BoundMakesRoom(m: Mode)
    requires LogInv(m.pendingWrites, m.maxPendingWrites, m.currentVersion)
    ensures AfterBound(m) == if |m.pendingWrites| >= m.maxPendingWrites then m.pendingWrites[1..] else m.pendingWrites
    ensures LogInv(AfterBound(m), m.maxPendingWrites, m.currentVersion) && |AfterBound(m)| < m.maxPendingWrites
  {
  }

  lemma NewWriteGoesLast(pending: seq<PendingWrite>, max: int, version: int, w: PendingWrite)
    requires LogInv(pending, max, version) && |pending| < max && 0 <= version && w.version == version + 1 && !w.reconciled
    ensures LogInv(pending + [w], max, version + 1)
  {
  }

  /** The log after a write, by component. */
  lemma WriteKeepsLog(m: Mode, w: PendingWrite)
    requires LogInv(m.pendingWrites, m.maxPendingWrites, m.currentVersion) && 0 <= m.currentVersion
    requires w.version == m.currentVersion + 1 && !w.reconciled
    ensures LogInv(AfterBound(m) + [w], m.maxPendingWrites, m.currentVersion + 1)
  {
    BoundMakesRoom(m);
    NewWriteGoesLast(AfterBound(m), m.maxPendingWrites, m.currentVersion, w);
  }

  lemma SetParts(m: Mode, key: string, value: Value, ttl: int, now: int, unixNow: int, oldest: string)
    ensures var m', e := AfterSet(m, key, value, ttl, now, unixNow, oldest), AfterEviction(m, oldest);
            && m'.pendingWrites == AfterBound(m) + [PendingWrite(key, value, unixNow, ttl, m.currentVersion + 1, false)]
            && m'.currentVersion == m.currentVersion + 1 && m'.maxPendingWrites == m.maxPendingWrites
            && m'.localCache == e.localCache[key := CacheEntry(value, now)] && m'.maxCacheSize == m.maxCacheSize
            && m'.cacheSize == (if key in e.localCache then e.cacheSize else e.cacheSize + 1)
            && (FlagsInv(m) ==> FlagsInv(m'))
  {
  }

  lemma SetKeepsLogHistory(m: Mode, writes: seq<LocalWrite>, w: PendingWrite)
    requires LogInv(m.pendingWrites, m.maxPendingWrites, m.currentVersion)
    requires LogMatchesWrites(m.pendingWrites, writes) && w.version == |writes| + 1
    ensures LogMatchesWrites(AfterBound(m) + [w], writes + [ToLocal(w)])
  {
    var p := AfterBound(m);
    assert forall i :: 0 <= i < |p| ==> p[i] in m.pendingWrites;
  }

  lemma SetKeepsCacheHistory(cache: map<string, CacheEntry>, writes: seq<LocalWrite>, w: LocalWrite, now: int)
    requires CacheMatchesWrites(cache, writes)
    ensures CacheMatchesWrites(cache[w.key := CacheEntry(w.value, now)], writes + [w])
  {
    var more := writes + [w];
    assert more[..|writes|] == writes;
  }

  /** The sweep keeps a subsequence of the log. */
  lemma UnreconciledKeepsLog(pending: seq<PendingWrite>, outcomes: seq<Outcome>, max: int, version: int)
    requires LogInv(pending, max, version) && |outcomes| == |pending|
    ensures LogInv(Unreconciled(Marked(pending, outcomes)), max, version)
    ensures forall w :: w in Unreconciled(Marked(pending, outcomes)) ==> w in pending
  {
    var marked := Marked(pending, outcomes);
    SweepKeepsOrder(marked);
    forall w | w in Unreconciled(marked) ensures w in pending {
      var i :| 0 <= i < |marked| && marked[i] == w;
      assert w == pending[i];
    }
  }

  lemma FewerWritesMatch(pending: seq<PendingWrite>, fewer: seq<PendingWrite>, writes: seq<LocalWrite>)
    requires LogMatchesWrites(pending, writes) && forall w :: w in fewer ==> w in pending
    ensures LogMatchesWrites(fewer, writes)
  {
    forall i | 0 <= i < |fewer|
      ensures 1 <= fewer[i].version <= |writes| && writes[fewer[i].version - 1] == ToLocal(fewer[i])
    {
      assert fewer[i] in pending;
    }
  }

  lemma PassKeepsInv(s: State, envs: seq<Env>)
    requires Inv(s) && |envs| == |s.mode.pendingWrites|
    ensures Inv(Reconciled(s, envs))
  {
    var pending := s.mode.pendingWrites;
    var outcomes := Pass(s.table, pending, envs, |pending|).outcomes;
    var swept := Unreconciled(Marked(pending, outcomes));
    UnreconciledKeepsLog(pending, outcomes, s.mode.maxPendingWrites, s.mode.currentVersion);
    FewerWritesMatch(pending, swept, s.writes);
    assert AfterPass(s.mode, s.table, envs) == s.mode.(pendingWrites := swept);
  }

  lemma WriteKeepsCacheInv(s: State, op: Op)
    requires Inv(s) && op.Write? && Enabled(s, op)
    ensures var m, writes := Apply(s, op).mode, Apply(s, op).writes;
            CacheInv(m.localCache, m.cacheSize, m.maxCacheSize) && CacheMatchesWrites(m.localCache, writes)
  {
    var Write(key, value, ttl, now, unixNow, oldest) := op;
    SetParts(s.mode, key, value, ttl, now, unixNow, oldest);
    WriteKeepsCache(s.mode, key, CacheEntry(value, now), oldest);
    SetKeepsCacheHistory(AfterEviction(s.mode, oldest).localCache, s.writes, LocalWrite(key, value, ttl, unixNow), now);
  }

  lemma WriteKeepsLogInv(s: State, op: Op)
    requires Inv(s) && op.Write? && Enabled(s, op)
    ensures var m, writes := Apply(s, op).mode, Apply(s, op).writes;
            && LogInv(m.pendingWrites, m.maxPendingWrites, m.currentVersion)
            && m.currentVersion == |writes| && LogMatchesWrites(m.pendingWrites, writes)
            && FlagsInv(m)
  {
    var Write(key, value, ttl, now, unixNow, oldest) := op;
    var w := PendingWrite(key, value, unixNow, ttl, s.mode.currentVersion + 1, false);
    SetParts(s.mode, key, value, ttl, now, unixNow, oldest);
    WriteKeepsLog(s.mode, w);
    SetKeepsLogHistory(s.mode, s.writes, w);
  }

  lemma WriteKeepsInv(s: State, op: Op)
    requires Inv(s) && op.Write? && Enabled(s, op)
    ensures Inv(Apply(s, op))
  {
    WriteKeepsCacheInv(s, op);
    WriteKeepsLogInv(s, op);
  }

  lemma TouchKeepsCache(cache: map<string, CacheEntry>, writes: seq<LocalWrite>, key: string, now: int)
    requires key in cache && CacheMatchesWrites(cache, writes)
    ensures var touched := cache[key := cache[key].(lastAccess := now)];
            touched.Keys == cache.Keys && |touched| == |cache| && CacheMatchesWrites(touched, writes)
  {
    var touched := cache[key := cache[key].(lastAccess := now)];
    assert touched.Keys == cache.Keys;
    assert |touched| == |touched.Keys| && |cache| == |cache.Keys|;
  }

  lemma ReadKeepsInv(s: State, key: string, now: int)
    requires Inv(s)
    ensures Inv(s.(mode := AfterGet(s.mode, key, now)))
  {
    if key in s.mode.localCache {
      TouchKeepsCache(s.mode.localCache, s.writes, key, now);
    }
  }

  lemma OpKeepsInv(s: State, op: Op)
    requires Inv(s) && Enabled(s, op)
    ensures Inv(Apply(s, op))
  {
    match op
    case Write(_, _, _, _, _, _) => WriteKeepsInv(s, op);
    case Read(key, now) => ReadKeepsInv(s, key, now);
    case Reconcile(envs) => PassKeepsInv(s, envs);
    case Recover(envs) => if !s.mode.redisAvailable { PassKeepsInv(s.(mode := AfterRedisUp(s.mode)), envs); }
    case _ =>
  }

  lemma {:induction false} RunKeepsInv(states: seq<State>, ops: seq<Op>, n: nat)
    requires IsRun(states, ops) && n < |states|
    ensures Inv(states[n])
  {
    if n > 0 {
      RunKeepsInv(states, ops, n - 1);
      OpKeepsInv(states[n-1], ops[n-1]);
    }
  }

  ghost predicate NonEmptyKeys(ops: seq<Op>, n: nat)
    requires n <= |ops|
  {
    forall i :: 0 <= i < n && ops[i].Write? ==> ops[i].key != ""
  }

  lemma OpKeepsBound(s: State, op: Op)
    requires Inv(s) && Enabled(s, op) && CacheBound(s.mode.localCache, s.mode.maxCacheSize)
    requires op.Write? ==> op.key != ""
    ensures CacheBound(Apply(s, op).mode.localCache, Apply(s, op).mode.maxCacheSize)
  {
    if op.Write? {
      SetParts(s.mode, op.key, op.value, op.ttl, op.now, op.unixNow, op.oldest);
      WriteKeepsCache(s.mode, op.key, CacheEntry(op.value, op.now), op.oldest);
    } else if op.Read? && op.key in s.mode.localCache {
      TouchKeepsCache(s.mode.localCache, s.writes, op.key, op.now);
    }
  }

  lemma {:induction false} RunKeepsBound(states: seq<State>, ops: seq<Op>, n: nat)
    requires IsRun(states, ops) && n < |states| && NonEmptyKeys(ops, n)
    ensures CacheBound(states[n].mode.localCache, states[n].mode.maxCacheSize)
  {
    if n > 0 {
      RunKeepsBound(states, ops, n - 1);
      RunKeepsInv(states, ops, n - 1);
      OpKeepsBound(states[n-1], ops[n-1]);
    }
  }

  // ---------- What every run guarantees ----------

  /** The size field counts the cache, which stays in its bound if no key was empty; the log stays in its
      bound with strictly increasing versions up to currentVersion and no reconciled entry; each cached
      value is that of the newest local write to its key; and the manager is degraded exactly while some
      dependency is down. */
  lemma RunsAreConsistent(states: seq<State>, ops: seq<Op>, n: nat)
    requires IsRun(states, ops) && n < |states|
    ensures var m, writes := states[n].mode, states[n].writes;
            && m.cacheSize == |m.localCache|
            && (NonEmptyKeys(ops, n) ==> m.cacheSize <= m.maxCacheSize)
            && |m.pendingWrites| <= m.maxPendingWrites
            && (forall i :: 0 <= i < |m.pendingWrites| ==>
                  !m.pendingWrites[i].reconciled && 1 <= m.pendingWrites[i].version <= m.currentVersion)
            && (forall i, j :: 0 <= i < j < |m.pendingWrites| ==> m.pendingWrites[i].version < m.pendingWrites[j].version)
            && (forall k :: k in m.localCache ==>
                  Newest(writes, k).Some? && m.localCache[k].value == writes[Newest(writes, k).value].value)
            && (m.degradedModeActive <==> !(m.redisAvailable && m.dbAvailable && m.natsAvailable))
  {
    RunKeepsInv(states, ops, n);
    if NonEmptyKeys(ops, n) {
      RunKeepsBound(states, ops, n);
    }
  }

  /** Every pending write of version v carries key, value, lifetime and time of the v-th local write. */
  lemma PendingIsWrite(states: seq<State>, ops: seq<Op>, n: nat, w: PendingWrite)
    requires IsRun(states, ops) && n < |states| && w in states[n].mode.pendingWrites
    ensures 1 <= w.version <= |states[n].writes|
    ensures states[n].writes[w.version - 1] == LocalWrite(w.key, w.value, w.ttl, w.timestamp)
  {
    RunKeepsInv(states, ops, n);
    var pending := states[n].mode.pendingWrites;
    var i :| 0 <= i < |pending| && pending[i] == w;
  }

  // ---------- What is kept, and what is given up ----------

  /** The clock of the newest write or read of a key among the first n operations, since the last clear. */
  function NewestUse(ops: seq<Op>, n: nat, key: string): Option<int>
    requires n <= |ops|
  {
    if n == 0 then None
    else
      match ops[n-1]
      case Write(k, _, _, now, _, _) => if k == key then Some(now) else NewestUse(ops, n - 1, key)
      case Read(k, now) => if k == key then Some(now) else NewestUse(ops, n - 1, key)
      case Clear => None
      case _ => NewestUse(ops, n - 1, key)
  }

  /** What one operation does to a key that is cached after it. */
  lemma OpUses(s: State, op: Op, k: string)
    requires Enabled(s, op) && k in Apply(s, op).mode.localCache
    ensures var after := Apply(s, op).mode.localCache[k].lastAccess;
            && op != Clear
            && if (op.Write? || op.Read?) && op.key == k then after == op.now
               else k in s.mode.localCache && after == s.mode.localCache[k].lastAccess
  {
  }

  /** A cached entry's access time is the clock of the newest write or read of its key; a clear leaves no
      entry. */
  lemma {:induction false} AccessIsNewestUse(states: seq<State>, ops: seq<Op>, n: nat, k: string)
    requires IsRun(states, ops) && n < |states| && k in states[n].mode.localCache
    ensures NewestUse(ops, n, k) == Some(states[n].mode.localCache[k].lastAccess)
  {
    if n > 0 {
      OpUses(states[n-1], ops[n-1], k);
      if !((ops[n-1].Write? || ops[n-1].Read?) && ops[n-1].key == k) {
        AccessIsNewestUse(states, ops, n - 1, k);
      }
    }
  }

  /** What one write does to the keys. */
  lemma WriteKeys(s: State, op: Op)
    requires Inv(s) && op.Write? && Enabled(s, op)
    ensures var gone := if |s.mode.localCache| >= s.mode.maxCacheSize && op.oldest != "" then {op.oldest} else {};
            Apply(s, op).mode.localCache.Keys == s.mode.localCache.Keys - gone + {op.key}
    ensures Apply(s, op).mode.localCache[op.key] == CacheEntry(op.value, op.now)
  {
    SetParts(s.mode, op.key, op.value, op.ttl, op.now, op.unixNow, op.oldest);
  }

  /** A write takes a key out of the cache only if the cache is full, and then only the one whose newest use
      is the oldest; it caches its own value. */
  lemma EvictsLeastRecentlyUsed(states: seq<State>, ops: seq<Op>, n: nat, gone: string, other: string)
    requires IsRun(states, ops) && n < |ops| && ops[n].Write?
    requires gone in states[n].mode.localCache && gone !in states[n+1].mode.localCache && other in states[n].mode.localCache
    ensures |states[n].mode.localCache| >= states[n].mode.maxCacheSize && gone != "" && gone != ops[n].key
    ensures NewestUse(ops, n, gone).Some? && NewestUse(ops, n, other).Some?
    ensures NewestUse(ops, n, gone).value <= NewestUse(ops, n, other).value
    ensures other !in states[n+1].mode.localCache ==> other == gone
    ensures ops[n].key in states[n+1].mode.localCache && states[n+1].mode.localCache[ops[n].key].value == ops[n].value
  {
    RunKeepsInv(states, ops, n);
    WriteKeys(states[n], ops[n]);
    AccessIsNewestUse(states, ops, n, gone);
    AccessIsNewestUse(states, ops, n, other);
  }

  /** Only a write that finds the cache full, and a clear, ever take a key out of it. */
  lemma KeysStay(states: seq<State>, ops: seq<Op>, n: nat, k: string)
    requires IsRun(states, ops) && n < |ops| && k in states[n].mode.localCache && ops[n] != Clear
    requires ops[n].Write? ==> |states[n].mode.localCache| < states[n].mode.maxCacheSize
    ensures k in states[n+1].mode.localCache
  {
    RunKeepsInv(states, ops, n);
    if ops[n].Write? {
      WriteKeys(states[n], ops[n]);
    } else {
      assert states[n+1] == Apply(states[n], ops[n]);
    }
  }

  /** The log at step i followed by the writes of the steps up to n. */
  function Appended(states: seq<State>, ops: seq<Op>, i: nat, n: nat): seq<PendingWrite>
    requires i <= n <= |ops| < |states|
  {
    if n == i then states[i].mode.pendingWrites
    else
      var op := ops[n-1];
      Appended(states, ops, i, n - 1)
      + if op.Write? then [PendingWrite(op.key, op.value, op.unixNow, op.ttl, states[n-1].mode.currentVersion + 1, false)] else []
  }

  /** The newest entries, as many as the bound allows. */
  function Tail(log: seq<PendingWrite>, max: nat): seq<PendingWrite> {
    if |log| <= max then log else log[|log| - max..]
  }

  lemma TailNext(log: seq<PendingWrite>, max: nat, w: PendingWrite)
    requires max > 0
    ensures Tail(log + [w], max) == (if |Tail(log, max)| >= max then Tail(log, max)[1..] else Tail(log, max)) + [w]
  {
  }

  lemma OpAppends(s: State, op: Op)
    requires Inv(s) && Enabled(s, op) && !op.Reconcile? && !op.Recover?
    ensures var m, m' := s.mode, Apply(s, op).mode;
            && m'.maxPendingWrites == m.maxPendingWrites
            && m'.pendingWrites ==
               if op.Write? then (if |m.pendingWrites| >= m.maxPendingWrites then m.pendingWrites[1..] else m.pendingWrites)
                                 + [PendingWrite(op.key, op.value, op.unixNow, op.ttl, m.currentVersion + 1, false)]
               else m.pendingWrites
  {
    if op.Write? {
      SetParts(s.mode, op.key, op.value, op.ttl, op.now, op.unixNow, op.oldest);
      BoundMakesRoom(s.mode);
    }
  }

  /** Between passes the log is exactly the newest of its writes, as many as the bound allows: nothing is
      dropped below the bound, and the oldest write goes first. */
  lemma {:induction false} LogIsNewestWrites(states: seq<State>, ops: seq<Op>, i: nat, n: nat)
    requires IsRun(states, ops) && i <= n <= |ops|
    requires forall k :: i <= k < n ==> !ops[k].Reconcile? && !ops[k].Recover?
    ensures states[n].mode.maxPendingWrites == states[i].mode.maxPendingWrites
    ensures states[n].mode.pendingWrites == Tail(Appended(states, ops, i, n), states[i].mode.maxPendingWrites)
  {
    if i == n {
      RunKeepsInv(states, ops, i);
    } else {
      LogIsNewestWrites(states, ops, i, n - 1);
      LogStaysNewest(states, ops, i, n, states[i].mode.maxPendingWrites);
    }
  }

  /** One more operation. */
  lemma LogStaysNewest(states: seq<State>, ops: seq<Op>, i: nat, n: nat, max: nat)
    requires IsRun(states, ops) && i < n <= |ops| && !ops[n-1].Reconcile? && !ops[n-1].Recover?
    requires states[n-1].mode.maxPendingWrites == max
    requires states[n-1].mode.pendingWrites == Tail(Appended(states, ops, i, n - 1), max)
    ensures states[n].mode.maxPendingWrites == max
    ensures states[n].mode.pendingWrites == Tail(Appended(states, ops, i, n), max)
  {
    RunKeepsInv(states, ops, n - 1);
    OpAppends(states[n-1], ops[n-1]);
    var op, log := ops[n-1], Appended(states, ops, i, n - 1);
    if op.Write? {
      TailNext(log, max, PendingWrite(op.key, op.value, op.unixNow, op.ttl, states[n-1].mode.currentVersion + 1, false));
    } else {
      assert log + [] == log;
    }
  }

  /** The bound on the cache survives a write exactly if it is not the case that the cache is full,
      the oldest key is the empty string and the key is new. */
  lemma CacheBoundExactly(m: Mode, key: string, value: Value, ttl: int, now: int, unixNow: int, oldest: string)
    requires m.cacheSize == |m.localCache| <= m.maxCacheSize && m.maxCacheSize > 0
    requires m.cacheSize >= m.maxCacheSize ==> IsOldest(m.localCache, oldest)
    ensures var m' := AfterSet(m, key, value, ttl, now, unixNow, oldest);
            && m'.cacheSize == |m'.localCache|
            && (m'.cacheSize <= m.maxCacheSize <==> !(m.cacheSize == m.maxCacheSize && oldest == "" && key !in m.localCache))
  {
    var e := AfterEviction(m, oldest);
    if m.cacheSize >= m.maxCacheSize && oldest != "" {
      assert e.localCache.Keys == m.localCache.Keys - {oldest};
    }
    assert e.localCache[key := CacheEntry(value, now)].Keys == e.localCache.Keys + {key};
  }

  /** A key of the given length. */
  function Key(n: nat): string {
    seq(n, _ => 'k')
  }

  /** The cache after the writes to Key(0) .. Key(n-1) at the times 0 .. n-1. */
  function Keyed(n: nat): map<string, CacheEntry> {
    if n == 0 then map[] else Keyed(n - 1)[Key(n - 1) := CacheEntry("v", n - 1)]
  }

  lemma {:induction false} KeyedEntries(n: nat)
    ensures |Keyed(n)| == n
    ensures forall k :: k in Keyed(n) <==> |k| < n && k == Key(|k|)
    ensures forall k :: k in Keyed(n) ==> Keyed(n)[k].lastAccess == |k|
  {
    if n > 0 {
      KeyedEntries(n - 1);
      assert |Key(n - 1)| == n - 1;
    }
  }

  /** With the empty string as the oldest key, a new key adds an entry whatever the bound. */
  lemma OneMoreKey(m: Mode, n: nat)
    requires n > 0 && m.localCache == Keyed(n - 1) && m.cacheSize == n - 1 && m.maxCacheSize > 0
    ensures m.cacheSize >= m.maxCacheSize ==> IsOldest(m.localCache, "")
    ensures var m' := AfterSet(m, Key(n - 1), "v", 0, n - 1, 0, "");
            m'.localCache == Keyed(n) && m'.cacheSize == |Keyed(n)| == n && m'.maxCacheSize == m.maxCacheSize
  {
    KeyedEntries(n - 1);
    KeyedEntries(n);
    assert n > 1 ==> Key(0) == "" && "" in Keyed(n - 1);
  }

  /** For every bound and every size there is a run whose cache has that size: once the empty string is
      the oldest key, nothing is evicted any more and each new key adds an entry. */
  lemma {:induction false} EmptyKeyOverflows(maxCacheSize: nat, maxPendingWrites: nat, n: nat) returns (states: seq<State>, ops: seq<Op>)
    requires maxCacheSize > 0 && maxPendingWrites > 0
    ensures IsRun(states, ops) && states[0].mode.maxCacheSize == maxCacheSize
    ensures states[|ops|].mode.localCache == Keyed(n) && states[|ops|].mode.cacheSize == |Keyed(n)| == n
    ensures states[|ops|].mode.maxCacheSize == maxCacheSize
  {
    if n == 0 {
      var m := Mode(map[], 0, maxCacheSize, [], maxPendingWrites, 0, true, true, true, false);
      states, ops := [State(m, map[], [])], [];
    } else {
      states, ops := EmptyKeyOverflows(maxCacheSize, maxPendingWrites, n - 1);
      OneMoreKey(states[|ops|].mode, n);
      var op := Write(Key(n - 1), "v", 0, n - 1, 0, "");
      states, ops := states + [Apply(states[|ops|], op)], ops + [op];
    }
  }

  /** After any pass that delivers it, a cached key's newest local write is in the store, in value and
      version, if it was still pending and fresh and the store held nothing at least as new; whatever
      happens to the other entries. */
  lemma RecoveryPublishesCache(states: seq<State>, ops: seq<Op>, n: nat, envs: seq<Env>, key: string, i: nat)
    requires IsRun(states, ops) && n < |states|
    requires |envs| == |states[n].mode.pendingWrites|
    requires var s := states[n];
             && key in s.mode.localCache && Newest(s.writes, key).Some?
             && Delivered(s.mode.pendingWrites, envs, |envs|, key, i)
             && s.mode.pendingWrites[i].version == Newest(s.writes, key).value + 1
             && (key in s.table ==> s.table[key].version < s.mode.pendingWrites[i].version)
    ensures var s := states[n];
            Lookup(Reconciled(s, envs).table, key)
              == Some(Versioned(s.mode.localCache[key].value, s.mode.pendingWrites[i].version, s.mode.pendingWrites[i].timestamp))
  {
    RunKeepsInv(states, ops, n);
    var s := states[n];
    PassHighestWins(s.table, s.mode.pendingWrites, envs, |envs|, key);
    NewestWins(s.mode.pendingWrites, s.writes, envs, key, i, Lookup(s.table, key), Lookup(Reconciled(s, envs).table, key));
    assert s.writes[Newest(s.writes, key).value].value == s.mode.localCache[key].value;
  }

  /** The pending entry of the newest local write is the one that wins over older ones. */
  lemma NewestWins(pending: seq<PendingWrite>, writes: seq<LocalWrite>, envs: seq<Env>, key: string, i: nat,
                   before: Cell<Value>, after: Cell<Value>)
    requires |envs| == |pending| && Increasing(pending) && LogMatchesWrites(pending, writes)
    requires Newest(writes, key).Some? && Delivered(pending, envs, |envs|, key, i) && pending[i].version == Newest(writes, key).value + 1
    requires before.Some? ==> before.value.version < pending[i].version
    requires HighestWins(before, after, pending, envs, |envs|, key)
    ensures after == Some(Versioned(writes[Newest(writes, key).value].value, pending[i].version, pending[i].timestamp))
  {
    assert after.Some? && pending[i].version <= after.value.version;
    var j :| WinsAt(before, after, pending, envs, |envs|, key, j);
    assert writes[pending[j].version - 1] == ToLocal(pending[j]);
    assert pending[j].version - 1 <= Newest(writes, key).value;
    assert j == i;
  }
}
