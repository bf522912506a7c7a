/** The desired states of the memory store (control_plane/store/memory.go). */
module MemoryStore {
  import opened Wrappers
  import opened Sharding

  datatype StateRow = StateRow(tenantID: string, stateID: string, nodeID: NodeID, status: string)

  method FnvHash(s: NodeID) returns (h: Word)
    ensures h == Fnv(s)
  {
    h := FNV_OFFSET;
    for i := 0 to |s|
      invariant h == Fnv(s[..i])
    {
      assert s[..i+1][..i] == s[..i];
      h := TimesPrime(h);
      h := XorByte(h, s[i]);
    }
    assert s[..|s|] == s;
  }

  /** The keys of the states a shard lists. */
  ghost function Listed(states: map<string, StateRow>, status: string, shardIndex: int, shardCount: int): set<string>
    requires !Panics(shardCount)
  {
    set k | k in states && states[k].status == status && Owns(states[k].nodeID, shardIndex, shardCount)
  }

  class MemoryStore {
    var states: map<string, StateRow>

    constructor ()
      ensures states == map[]
    {
      states := map[];
    }

    /** Lists each matching state once, in the map's arbitrary order; None stands for the panic that
        a shard count of zero width causes at the first matching state. */
    method ListStatesByStatus(status: string, shardIndex: int, shardCount: int) returns (listed: Option<seq<string>>)
      ensures listed.None? <==> Panics(shardCount) && exists k :: k in states && states[k].status == status
      ensures listed.Some? && !Panics(shardCount) ==>
                && (forall k :: k in listed.value <==> k in Listed(states, status, shardIndex, shardCount))
                && (forall i, j :: 0 <= i < j < |listed.value| ==> listed.value[i] != listed.value[j])
      ensures listed.Some? && Panics(shardCount) ==> listed.value == []
    {
      var keys, rest := [], states.Keys;
      while rest != {}
        invariant rest <= states.Keys
        invariant Panics(shardCount) ==> keys == [] && forall k :: k in states && k !in rest ==> states[k].status != status
        invariant !Panics(shardCount) ==> forall k :: k in keys <==> k in Listed(states, status, shardIndex, shardCount) && k !in rest
        invariant forall k :: k in keys ==> k in states && k !in rest
        invariant forall i, j :: 0 <= i < j < |keys| ==> keys[i] != keys[j]
      {
        var k :| k in rest;
        rest := rest - {k};
        if states[k].status == status {
          if shardCount > 1 {
            if Width(shardCount) == 0 {
              return None;
            }
            var h := FnvHash(states[k].nodeID);
            if h % Width(shardCount) != shardIndex {
              continue;
            }
          }
          keys := keys + [k];
        }
      }
      listed := Some(keys);
    }
  }

  /** The listings of the shards partition the states of a status: every such state is listed by
      exactly one shard, and nothing else is listed. */
  lemma ListingsPartition(states: map<string, StateRow>, status: string, shardCount: int, k: string)
    requires shardCount >= 1 && !Panics(shardCount)
    ensures k in states && states[k].status == status <==>
            exists i :: 0 <= i < shardCount && k in Listed(states, status, i, shardCount)
    ensures forall i, j ::
              && 0 <= i < shardCount && 0 <= j < shardCount
              && k in Listed(states, status, i, shardCount) && k in Listed(states, status, j, shardCount)
              ==> i == j
  {
    if k in states && states[k].status == status {
      var home := if shardCount > 1 then ShardOf(states[k].nodeID, shardCount) else 0;
      assert home < shardCount;
      assert k in Listed(states, status, home, shardCount);
    }
  }
}
