/**
 The versioned values of control_plane/store/redis_versioned.go. Each Lua script is one atomic step
 on one hash. Values are abstract; their JSON form is not modelled.
 */
module VersionedStore {
  import opened Wrappers

  datatype Versioned<+V> = Versioned(value: V, version: int, timestamp: int)

  type Cell<+V> = Option<Versioned<V>>

  /** The versioned SET script: write only what is strictly newer. */
  function SetScript<V>(cell: Cell<V>, v: Versioned<V>): (Cell<V>, bool) {
    if cell.None? || v.version > cell.value.version then (Some(v), true) else (cell, false)
  }

  /** The compare-and-set script. A missing hash has no version to mismatch. */
  function CasScript<V>(cell: Cell<V>, expected: int, v: Versioned<V>): (Cell<V>, bool) {
    if cell.Some? && cell.value.version != expected then (cell, false) else (Some(v), true)
  }

  function Lookup<V>(table: map<string, Versioned<V>>, key: string): Cell<V> {
    if key in table then Some(table[key]) else None
  }

  function Put<V>(table: map<string, Versioned<V>>, key: string, cell: Cell<V>): map<string, Versioned<V>> {
    if cell.Some? then table[key := cell.value] else table - {key}
  }

  /** The versioned part of the Redis store. */
  class RedisHashes<V> {
    var table: map<string, Versioned<V>>

    constructor ()
      ensures table == map[]
    {
      table := map[];
    }

    method SetVersioned(key: string, v: Versioned<V>) returns (wasSet: bool)
      modifies this
      ensures wasSet == SetScript(Lookup(old(table), key), v).1
      ensures table == Put(old(table), key, SetScript(Lookup(old(table), key), v).0)
    {
      wasSet := key !in table || v.version > table[key].version;
      if wasSet {
        table := table[key := v];
      }
    }

    /** The absence of a reply reads as the absence of the key. */
    method GetVersioned(key: string, callFails: bool) returns (cell: Cell<V>)
      ensures cell == if callFails then None else Lookup(table, key)
    {
      if callFails || key !in table {
        return None;
      }
      cell := Some(table[key]);
    }

    method CompareAndSetVersioned(key: string, expected: int, v: Versioned<V>) returns (wasSet: bool)
      modifies this
      ensures wasSet == CasScript(Lookup(old(table), key), expected, v).1
      ensures table == Put(old(table), key, CasScript(Lookup(old(table), key), expected, v).0)
    {
      if key in table && table[key].version != expected {
        return false;
      }
      table := table[key := v];
      wasSet := true;
    }
  }

  // ---------- Any number of writers ----------

  /** One script executed on behalf of some node. Reads and failed calls execute nothing. */
  datatype Command<+V> = Set(key: string, v: Versioned<V>) | Cas(key: string, expected: int, v: Versioned<V>)

  function Execute<V>(table: map<string, Versioned<V>>, c: Command<V>): map<string, Versioned<V>> {
    match c
    case Set(key, v) => Put(table, key, SetScript(Lookup(table, key), v).0)
    case Cas(key, expected, v) => Put(table, key, CasScript(Lookup(table, key), expected, v).0)
  }

  function ExecuteAll<V>(table: map<string, Versioned<V>>, cs: seq<Command<V>>): map<string, Versioned<V>> {
    if cs == [] then table else Execute(ExecuteAll(table, cs[..|cs|-1]), cs[|cs|-1])
  }

  /** Both callers of the compare-and-set script write a version above the one they expect. */
  predicate Advances<V>(c: Command<V>) {
    c.Cas? ==> c.expected < c.v.version
  }

  /** before may become after: the key stays, its version never drops, and a version keeps its value. */
  predicate Follows<V(==)>(before: Cell<V>, after: Cell<V>) {
    before.Some? ==>
      && after.Some?
      && before.value.version <= after.value.version
      && (before.value.version == after.value.version ==> before == after)
  }

  /** Whatever the interleaving of writers, and however old the reads they decided on, each key's
      version never decreases and a value once stored at a version is never replaced at it. */
  lemma {:induction false} VersionsOnlyGrow<V>(table: map<string, Versioned<V>>, cs: seq<Command<V>>, key: string)
    requires forall i :: 0 <= i < |cs| ==> Advances(cs[i])
    ensures Follows(Lookup(table, key), Lookup(ExecuteAll(table, cs), key))
  {
    if cs != [] {
      var earlier := cs[..|cs|-1];
      assert Advances(cs[|cs|-1]);
      VersionsOnlyGrow(table, earlier, key);
    }
  }

  /** The same between any two moments of one run. */
  lemma VersionsOnlyGrowBetween<V>(table: map<string, Versioned<V>>, cs: seq<Command<V>>, i: nat, j: nat, key: string)
    requires i <= j <= |cs|
    requires forall i :: 0 <= i < |cs| ==> Advances(cs[i])
    ensures Follows(Lookup(ExecuteAll(table, cs[..i]), key), Lookup(ExecuteAll(table, cs[..j]), key))
  {
    ExecuteInTwo(table, cs[..i], cs[i..j]);
    assert cs[..j] == cs[..i] + cs[i..j];
    VersionsOnlyGrow(ExecuteAll(table, cs[..i]), cs[i..j], key);
  }

  lemma {:induction false} ExecuteInTwo<V>(table: map<string, Versioned<V>>, a: seq<Command<V>>, b: seq<Command<V>>)
    ensures ExecuteAll(table, a + b) == ExecuteAll(ExecuteAll(table, a), b)
  {
    if b == [] {
      assert a + b == a;
    } else {
      ExecuteInTwo(table, a, b[..|b|-1]);
      assert (a + b)[..|a + b|-1] == a + b[..|b|-1];
    }
  }

  /** A set is refused if and only if at some moment of the run the store held its version or a newer one,
      however long ago. */
  lemma RefusedExactly<V>(table: map<string, Versioned<V>>, cs: seq<Command<V>>, key: string, v: Versioned<V>)
    requires forall i :: 0 <= i < |cs| ==> Advances(cs[i])
    ensures !SetScript(Lookup(ExecuteAll(table, cs), key), v).1 <==> exists i :: 0 <= i <= |cs| && HeldAt(table, cs, i, key, v.version)
  {
    if !SetScript(Lookup(ExecuteAll(table, cs), key), v).1 {
      assert cs[..|cs|] == cs;
      assert HeldAt(table, cs, |cs|, key, v.version);
    }
    forall i | 0 <= i <= |cs| && HeldAt(table, cs, i, key, v.version)
      ensures !SetScript(Lookup(ExecuteAll(table, cs), key), v).1
    {
      VersionsOnlyGrowBetween(table, cs, i, |cs|, key);
      assert cs[..|cs|] == cs;
    }
  }

  /** After i commands the key has this version or a newer one. */
  predicate HeldAt<V>(table: map<string, Versioned<V>>, cs: seq<Command<V>>, i: int, key: string, version: int)
    requires 0 <= i <= |cs|
  {
    var cell := Lookup(ExecuteAll(table, cs[..i]), key);
    cell.Some? && version <= cell.value.version
  }
}
