/** The node hash and the shard test shared by the memory store and the scheduler. */
module Sharding {
  type Byte = b: int | 0 <= b < 256 witness 0

  /** Go strings are byte sequences. */
  type NodeID = seq<Byte>

  /** A 32-bit word. */
  type Word = h: int | 0 <= h < 0x1_0000_0000 witness 0

  const FNV_OFFSET: Word := 2166136261
  const FNV_PRIME := 16777619

  function Pow2(n: nat): nat {
    if n == 0 then 1 else 2 * Pow2(n - 1)
  }

  lemma WordSize()
    ensures Pow2(32) == 0x1_0000_0000
  {
    assert Pow2(8) == 0x100;
    assert Pow2(16) == 0x1_0000;
    assert Pow2(24) == 0x100_0000;
  }

  /** Bitwise exclusive or of the lowest bits. */
  function Xor(x: nat, y: nat, bits: nat): (r: nat)
    ensures r < Pow2(bits)
  {
    if bits == 0 then 0 else 2 * Xor(x / 2, y / 2, bits - 1) + (x + y) % 2
  }

  /** Multiplication that wraps at 32 bits. */
  function TimesPrime(h: Word): Word {
    (h * FNV_PRIME) % 0x1_0000_0000
  }

  function XorByte(h: Word, b: Byte): Word {
    WordSize();
    Xor(h, b, 32)
  }

  /** Multiply, wrapping at 32 bits, then xor the next byte. */
  function Fnv(s: NodeID): Word {
    if s == [] then FNV_OFFSET else XorByte(TimesPrime(Fnv(s[..|s|-1])), s[|s|-1])
  }

  lemma LastBit(x: nat, y: nat, r: nat)
    ensures var z := 2 * r + (x + y) % 2; z / 2 == r && (z + y) % 2 == x % 2
  {
  }

  lemma XorUndoesLastBit(x: nat, y: nat, bits: nat)
    requires bits > 0 && Xor(Xor(x / 2, y / 2, bits - 1), y / 2, bits - 1) == x / 2
    ensures Xor(Xor(x, y, bits), y, bits) == x
  {
    var r, z := Xor(x / 2, y / 2, bits - 1), Xor(x, y, bits);
    LastBit(x, y, r);
    assert z == 2 * r + (x + y) % 2;
    assert z / 2 == r;
  }

  lemma {:induction false} XorUndoes(x: nat, y: nat, bits: nat)
    requires x < Pow2(bits)
    ensures Xor(Xor(x, y, bits), y, bits) == x
  {
    if bits > 0 {
      XorUndoes(x / 2, y / 2, bits - 1);
      XorUndoesLastBit(x, y, bits);
    }
  }

  /** Ids that differ only in their last byte never collide. */
  lemma LastByteDistinguishes(s: NodeID, a: Byte, b: Byte)
    ensures Fnv(s + [a]) == Fnv(s + [b]) <==> a == b
  {
    assert (s + [a])[..|s|] == s && (s + [b])[..|s|] == s;
    var h := TimesPrime(Fnv(s));
    WordSize();
    XorCommutes(h, a, 32);
    XorCommutes(h, b, 32);
    XorUndoes(a, h, 32);
    XorUndoes(b, h, 32);
  }

  lemma {:induction false} XorCommutes(x: nat, y: nat, bits: nat)
    ensures Xor(x, y, bits) == Xor(y, x, bits)
  {
    if bits > 0 {
      XorCommutes(x / 2, y / 2, bits - 1);
    }
  }

  /** The conversion of a shard count to 32 bits. */
  function Width(shardCount: int): nat {
    shardCount % 0x1_0000_0000
  }

  /** The remainder by a count that converts to zero is a run-time panic. */
  predicate Panics(shardCount: int) {
    shardCount > 1 && Width(shardCount) == 0
  }

  function ShardOf(id: NodeID, shardCount: int): (r: int)
    requires Width(shardCount) != 0
    ensures 0 <= r < Width(shardCount)
  {
    Fnv(id) % Width(shardCount)
  }

  /** The test of both ListStatesByStatus and Submit: one shard or none means no test. */
  predicate Owns(id: NodeID, shardIndex: int, shardCount: int)
    requires !Panics(shardCount)
  {
    shardCount > 1 ==> ShardOf(id, shardCount) == shardIndex
  }

  // ---------- Shards differ ----------

  lemma {:induction false} XorNothing(x: nat, bits: nat)
    requires x < Pow2(bits)
    ensures Xor(x, 0, bits) == x
  {
    if bits > 0 {
      XorNothing(x / 2, bits - 1);
    }
  }

  /** Exclusive or with one flips the last bit. */
  lemma XorOne(x: nat, bits: nat)
    requires bits > 0 && x < Pow2(bits)
    ensures Xor(x, 1, bits) == if x % 2 == 0 then x + 1 else x - 1
  {
    XorNothing(x / 2, bits - 1);
  }

  lemma NoUnitMultiple(k: int, width: nat)
    requires width >= 2
    ensures k * width != 1
  {
    if k >= 1 {
      assert k * width == (k - 1) * width + width;
    }
  }

  lemma NeighboursDiffer(x: nat, width: nat)
    requires width >= 2
    ensures x % width != (x + 1) % width
  {
    var q, k := x / width, (x + 1) / width - x / width;
    NoUnitMultiple(k, width);
    assert (q + k) * width == q * width + k * width;
  }

  /** However many shards there are, two ids that differ only in their last byte, zero or one, fall to
      different ones: no prefix is bound to one shard. */
  lemma PrefixReachesTwoShards(s: NodeID, shardCount: int)
    requires shardCount > 1 && Width(shardCount) >= 2
    ensures ShardOf(s + [0], shardCount) != ShardOf(s + [1], shardCount)
  {
    assert (s + [0])[..|s|] == s && (s + [1])[..|s|] == s;
    var h := TimesPrime(Fnv(s));
    WordSize();
    XorNothing(h, 32);
    XorOne(h, 32);
    NeighboursDiffer(if h % 2 == 0 then h else h - 1, Width(shardCount));
  }

  lemma OneMoreBit(x: nat, y: nat, bits: nat, half: nat)
    requires bits > 0 && Xor(x / 2, y / 2, bits - 1) == half
    ensures Xor(x, y, bits) == 2 * half + (x + y) % 2
  {
  }

  /** The published FNV-1 value of the one-letter string "a". */
  lemma HashOfLetterA()
    ensures Fnv([]) == 0x811c9dc5 && Fnv([0x61]) == 0x050c5d7e
  {
    assert [0x61][..0] == [];
    assert TimesPrime(0x811c9dc5) == 0x050c5d1f;
    LowBitsOfLetterA(0x050c5d1f, 0x61, 32);
  }

  lemma HighBits()
    ensures Pow2(25) == 0x200_0000
  {
    assert Pow2(8) == 0x100;
    assert Pow2(16) == 0x1_0000;
    assert Pow2(24) == 0x100_0000;
  }

  lemma LowBitsOfLetterA(h: nat, b: nat, bits: nat)
    requires h == 0x050c5d1f && b == 0x61 && bits == 32
    ensures Xor(h, b, bits) == 0x050c5d7e
  {
    HighBits();
    XorNothing(h / 128, bits - 7);
    OneMoreBit(h / 64, b / 64, bits - 6, h / 128);
    OneMoreBit(h / 32, b / 32, bits - 5, 0x143175);
    OneMoreBit(h / 16, b / 16, bits - 4, 0x2862eb);
    OneMoreBit(h / 8, b / 8, bits - 3, 0x50c5d7);
    OneMoreBit(h / 4, b / 4, bits - 2, 0xa18baf);
    OneMoreBit(h / 2, b / 2, bits - 1, 0x143175f);
    OneMoreBit(h, b, bits, 0x2862ebf);
  }
}
