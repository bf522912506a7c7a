/** One cleaning pass of control_plane/coordination/janitor.go over the lock keys. */
module Janitor {
  import opened Wrappers
  import opened LockStore
  import opened LeaderElection

  /** A stored lock string: one that decodes to lock metadata, or one that does not. */
  datatype LockText = Encoded(meta: LockMetadata) | Undecodable(text: string)

  /** Calls that fail during the pass, and the two clocks read. */
  datatype Faults = Faults(get: set<string>, release: set<string>, redisNow: int, localNow: int)

  const EPOCH_SUFFIX := ":epoch"

  predicate IsEpochKey(key: string) {
    |key| > 6 && key[|key|-6..] == EPOCH_SUFFIX
  }

  /** The locks that deserve to go: readable, decodable, and fenced or stale. */
  predicate Doomed(locks: map<string, Entry<LockText>>, key: string, currentEpoch: int, f: Faults) {
    && !IsEpochKey(key) && key !in f.get
    && key in locks && f.redisNow < locks[key].expiresAt
    && locks[key].value.Encoded?
    && ShouldEvict(locks[key].value.meta, currentEpoch, f.localNow)
  }

  function Elements(keys: seq<string>): set<string> {
    set k | k in keys
  }

  /** What a pass leaves. */
  ghost function Cleaned(locks: map<string, Entry<LockText>>, scanned: set<string>, currentEpoch: int, f: Faults): map<string, Entry<LockText>> {
    map k | k in locks && !(k in scanned && k !in f.release && Doomed(locks, k, currentEpoch, f)) :: locks[k]
  }

  class LockJanitor {
    constructor () {}

    method Clean(store: RedisLocks<LockText>, epoch: Reply<int>, scan: Reply<seq<string>>, f: Faults)
      modifies store
      ensures store.keys ==
              if epoch.Error? || scan.Error? then old(store.keys)
              else Cleaned(old(store.keys), Elements(scan.value), epoch.value, f)
    {
      if epoch.Error? || scan.Error? {
        return;
      }
      var currentEpoch, keys := epoch.value, scan.value;
      ghost var locks := store.keys;
      assert store.keys == Cleaned(locks, {}, currentEpoch, f);
      for n := 0 to |keys|
        invariant store.keys == Cleaned(locks, Elements(keys[..n]), currentEpoch, f)
      {
        var key := keys[n];
        assert Elements(keys[..n+1]) == Elements(keys[..n]) + {key};
        if IsEpochKey(key) || key in f.get {
          continue;
        }
        var owner := store.GetLockOwner(key, f.redisNow);
        if owner.None? || owner.value.Undecodable? {
          continue;
        }
        // fenced, or past its own expiry stamp
        if owner.value.meta.epoch < currentEpoch || f.localNow > owner.value.meta.expiresAt + 5000 {
          if key !in f.release {
            store.ReleaseLock(key, owner.value, f.redisNow);
          }
        }
      }
      assert keys[..|keys|] == keys;
    }
  }

  /** A pass leaves alone what it did not scan, could not read, decode or release, and every epoch key. It
      never removes a live lease of the newest epoch that is within its stamp, and one with no failing call
      leaves no scanned lock that deserves to go; a second pass changes nothing. */
  lemma CleanIsExact(locks: map<string, Entry<LockText>>, scanned: set<string>, currentEpoch: int, f: Faults)
    ensures var after := Cleaned(locks, scanned, currentEpoch, f);
            && (forall k :: k in after ==> k in locks && after[k] == locks[k])
            && (forall k :: k in locks && (k !in scanned || k in f.get || k in f.release || locks[k].value.Undecodable?
                                           || (|k| > 6 && k[|k|-6..] == ":epoch"))
                  ==> k in after)
            && (forall k :: k in locks && locks[k].value.Encoded? && locks[k].value.meta.epoch >= currentEpoch
                  && f.localNow <= locks[k].value.meta.expiresAt + 5000
                  ==> k in after && after[k] == locks[k])
            && (f.get == {} && f.release == {} ==>
                  forall k :: k in scanned && k in after && !(|k| > 6 && k[|k|-6..] == ":epoch") && f.redisNow < after[k].expiresAt && after[k].value.Encoded?
                    ==> after[k].value.meta.epoch >= currentEpoch && f.localNow <= after[k].value.meta.expiresAt + 5000)
            && Cleaned(after, scanned, currentEpoch, f) == after
  {
    var after := Cleaned(locks, scanned, currentEpoch, f);
    forall k | k in after ensures !(k in scanned && k !in f.release && Doomed(after, k, currentEpoch, f)) {
      assert after[k] == locks[k];
    }
  }
}
