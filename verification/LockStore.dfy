/**
 The Redis lock primitives of control_plane/store/redis.go. Each Lua script or single command
 is one atomic step on one key; times are milliseconds on the Redis clock.
 */
module LockStore {
  import opened Wrappers

  /** Both callers pass a fixed positive lifetime. */
  type Ttl = t: int | 0 < t witness 1

  /** A string key with a lifetime; it reads as absent from expiresAt on. */
  datatype Entry<+V> = Entry(value: V, expiresAt: int)

  type Slot<+V> = Option<Entry<V>>

  function Live<V>(slot: Slot<V>, now: int): Option<V> {
    if slot.Some? && now < slot.value.expiresAt then Some(slot.value.value) else None
  }

  /** SET key value NX with a lifetime. */
  function SetNx<V>(slot: Slot<V>, value: V, ttl: Ttl, now: int): (r: (Slot<V>, bool))
    ensures r.1 <==> Live(slot, now).None?
    ensures r.1 ==> Live(r.0, now) == Some(value)
    ensures !r.1 ==> r.0 == slot
  {
    if Live(slot, now).None? then (Some(Entry(value, now + ttl)), true) else (slot, false)
  }

  /** The renew script: extend the lifetime if the stored value is the caller's. */
  function CompareAndExpire<V(==)>(slot: Slot<V>, value: V, ttl: Ttl, now: int): (r: (Slot<V>, bool))
    ensures r.1 <==> Live(slot, now) == Some(value)
    ensures Live(r.0, now) == Live(slot, now)
    ensures !r.1 ==> r.0 == slot
  {
    if Live(slot, now) == Some(value) then (Some(Entry(value, now + ttl)), true) else (slot, false)
  }

  /** The release script: delete the key if the stored value is the caller's. */
  function CompareAndDelete<V(==)>(slot: Slot<V>, value: V, now: int): (r: Slot<V>)
    ensures Live(r, now) == if Live(slot, now) == Some(value) then None else Live(slot, now)
    ensures Live(slot, now) != Some(value) ==> r == slot
  {
    if Live(slot, now) == Some(value) then None else slot
  }

  ghost predicate SameElsewhere<V>(before: map<string, Entry<V>>, after: map<string, Entry<V>>, key: string) {
    forall k :: k != key ==> (k in before <==> k in after) && (k in before ==> before[k] == after[k])
  }

  /** The lock part of the Redis store: string keys with lifetimes. */
  class RedisLocks<V(==)> {
    var keys: map<string, Entry<V>>

    ghost function At(key: string): Slot<V>
      reads this
    {
      if key in keys then Some(keys[key]) else None
    }

    constructor ()
      ensures keys == map[]
    {
      keys := map[];
    }

    method AcquireLock(key: string, ownerID: V, ttl: Ttl, now: int) returns (acquired: bool)
      modifies this
      ensures acquired == SetNx(old(At(key)), ownerID, ttl, now).1
      ensures At(key) == SetNx(old(At(key)), ownerID, ttl, now).0
      ensures SameElsewhere(old(keys), keys, key)
    {
      acquired := key !in keys || keys[key].expiresAt <= now;
      if acquired {
        keys := keys[key := Entry(ownerID, now + ttl)];
      }
    }

    method RenewLock(key: string, ownerID: V, ttl: Ttl, now: int) returns (renewed: bool)
      modifies this
      ensures renewed == CompareAndExpire(old(At(key)), ownerID, ttl, now).1
      ensures At(key) == CompareAndExpire(old(At(key)), ownerID, ttl, now).0
      ensures SameElsewhere(old(keys), keys, key)
    {
      if key !in keys || keys[key].expiresAt <= now {
        return false;                                   // key missing
      }
      renewed := keys[key].value == ownerID;
      if renewed {
        keys := keys[key := Entry(ownerID, now + ttl)];
      }
    }

    method ReleaseLock(key: string, ownerID: V, now: int)
      modifies this
      ensures At(key) == CompareAndDelete(old(At(key)), ownerID, now)
      ensures SameElsewhere(old(keys), keys, key)
    {
      if key in keys && now < keys[key].expiresAt && keys[key].value == ownerID {
        keys := keys - {key};
      }
    }

    method GetLockOwner(key: string, now: int) returns (owner: Option<V>)
      ensures owner == Live(At(key), now)
    {
      if key in keys && now < keys[key].expiresAt {
        owner := Some(keys[key].value);
      } else {
        owner := None;
      }
    }
  }
}
