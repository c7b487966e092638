/**
 * FNV-1a, 32-bit variant (Fowler–Noll–Vo hash): start from the offset basis,
 * then for every input byte XOR the byte into the low bits and multiply by
 * the FNV prime modulo 2^32. `bv32` arithmetic wraps modulo 2^32, so the
 * definition below is exact.
 */
module Fnv {

  type byte = bv8

  /** The 32-bit FNV offset basis. */
  const OffsetBasis32: bv32 := 2166136261

  /** The 32-bit FNV prime, 2^24 + 2^8 + 0x93. */
  const Prime32: bv32 := 16777619

  /** One FNV-1a round: XOR the byte in, then multiply by the prime. */
  function Step(h: bv32, b: byte): bv32 {
    (h ^ (b as bv32)) * Prime32
  }

  /** Runs FNV-1a rounds over `data`, left to right, starting from `h`. */
  function Fold(h: bv32, data: seq<byte>): bv32
    decreases |data|
  {
    if |data| == 0 then h else Fold(Step(h, data[0]), data[1..])
  }

  /** The FNV-1a 32-bit digest of `data`. */
  function Sum32a(data: seq<byte>): bv32 {
    Fold(OffsetBasis32, data)
  }

  /**
   * Feeding the input in two pieces gives the same digest as feeding it in
   * one: hashing continues from the intermediate state.
   */
  lemma {:induction false} FoldAppend(h: bv32, a: seq<byte>, b: seq<byte>)
    ensures Fold(h, a + b) == Fold(Fold(h, a), b)
    decreases |a|
  {
    if |a| == 0 {
      assert a + b == b;
    } else {
      assert (a + b)[0] == a[0];
      assert (a + b)[1..] == a[1..] + b;
      FoldAppend(Step(h, a[0]), a[1..], b);
    }
  }

  /** Appending one byte costs exactly one more round on the digest so far. */
  lemma {:induction false} Sum32aSnoc(data: seq<byte>, b: byte)
    ensures Sum32a(data + [b]) == Step(Sum32a(data), b)
  {
    FoldAppend(OffsetBasis32, data, [b]);
    assert [b][1..] == [];
  }

  /** Appending a byte to an input with a known digest: one concrete round. */
  lemma {:induction false} Sum32aSnocValue(data: seq<byte>, b: byte, before: bv32, after: bv32)
    requires Sum32a(data) == before
    requires Step(before, b) == after
    ensures Sum32a(data + [b]) == after
  {
    Sum32aSnoc(data, b);
  }

  /** The six rounds of FNV-1a over "foobar", from the offset basis. */
  lemma FoobarRounds()
    ensures Step(0x811c9dc5, 'f' as byte) == 0xe30c2799
    ensures Step(0xe30c2799, 'o' as byte) == 0x6222e842
    ensures Step(0x6222e842, 'o' as byte) == 0xa9f37ed7
    ensures Step(0xa9f37ed7, 'b' as byte) == 0x3f5076ef
    ensures Step(0x3f5076ef, 'a' as byte) == 0x39aaa18a
    ensures Step(0x39aaa18a, 'r' as byte) == 0xbf9cf968
  {
  }

  /** The eight rounds of FNV-1a over the address string "10.0.0.5", from the offset basis. */
  lemma DottedQuadRounds()
    ensures Step(0x811c9dc5, '1' as byte) == 0x340ca71c
    ensures Step(0x340ca71c, '0' as byte) == 0x1beb2a44
    ensures Step(0x1beb2a44, '.' as byte) == 0x5d33c4de
    ensures Step(0x5d33c4de, '0' as byte) == 0xa67f02aa
    ensures Step(0xa67f02aa, '.' as byte) == 0x9df0f5cc
    ensures Step(0x9df0f5cc, '0' as byte) == 0x9e533bb4
    ensures Step(0x9e533bb4, '.' as byte) == 0xd706d36e
    ensures Step(0xd706d36e, '5' as byte) == 0xdabeb841
  {
  }

  /** Published FNV-1a 32-bit test vectors: the empty input and "a". */
  lemma TestVectors()
    ensures Sum32a([]) == 0x811c9dc5
    ensures Sum32a(['a' as byte]) == 0xe40c292c
  {
    Sum32aSnocValue([], 'a' as byte, 0x811c9dc5, 0xe40c292c);
    assert [] + ['a' as byte] == ['a' as byte];
  }

  /** Published FNV-1a 32-bit test vector for "foobar", checked round by round. */
  lemma TestVectorFoobar()
    ensures Sum32a(['f' as byte, 'o' as byte, 'o' as byte, 'b' as byte, 'a' as byte, 'r' as byte]) == 0xbf9cf968
  {
    FoobarRounds();
    Sum32aSnocValue([], 'f' as byte, 0x811c9dc5, 0xe30c2799);
    assert [] + ['f' as byte] == ['f' as byte];
    Sum32aSnocValue(['f' as byte], 'o' as byte, 0xe30c2799, 0x6222e842);
    assert ['f' as byte] + ['o' as byte] == ['f' as byte, 'o' as byte];
    Sum32aSnocValue(['f' as byte, 'o' as byte], 'o' as byte, 0x6222e842, 0xa9f37ed7);
    assert ['f' as byte, 'o' as byte] + ['o' as byte] == ['f' as byte, 'o' as byte, 'o' as byte];
    Sum32aSnocValue(['f' as byte, 'o' as byte, 'o' as byte], 'b' as byte, 0xa9f37ed7, 0x3f5076ef);
    assert ['f' as byte, 'o' as byte, 'o' as byte] + ['b' as byte] == ['f' as byte, 'o' as byte, 'o' as byte, 'b' as byte];
    Sum32aSnocValue(['f' as byte, 'o' as byte, 'o' as byte, 'b' as byte], 'a' as byte, 0x3f5076ef, 0x39aaa18a);
    assert ['f' as byte, 'o' as byte, 'o' as byte, 'b' as byte] + ['a' as byte] == ['f' as byte, 'o' as byte, 'o' as byte, 'b' as byte, 'a' as byte];
    Sum32aSnocValue(['f' as byte, 'o' as byte, 'o' as byte, 'b' as byte, 'a' as byte], 'r' as byte, 0x39aaa18a, 0xbf9cf968);
    assert ['f' as byte, 'o' as byte, 'o' as byte, 'b' as byte, 'a' as byte] + ['r' as byte] == ['f' as byte, 'o' as byte, 'o' as byte, 'b' as byte, 'a' as byte, 'r' as byte];
  }

  /** The digest of the client address string "10.0.0.5", checked round by round. */
  lemma DottedQuadDigest()
    ensures Sum32a(['1' as byte, '0' as byte, '.' as byte, '0' as byte, '.' as byte, '0' as byte, '.' as byte, '5' as byte]) == 0xdabeb841
  {
    DottedQuadRounds();
    Sum32aSnocValue([], '1' as byte, 0x811c9dc5, 0x340ca71c);
    assert [] + ['1' as byte] == ['1' as byte];
    Sum32aSnocValue(['1' as byte], '0' as byte, 0x340ca71c, 0x1beb2a44);
    assert ['1' as byte] + ['0' as byte] == ['1' as byte, '0' as byte];
    Sum32aSnocValue(['1' as byte, '0' as byte], '.' as byte, 0x1beb2a44, 0x5d33c4de);
    assert ['1' as byte, '0' as byte] + ['.' as byte] == ['1' as byte, '0' as byte, '.' as byte];
    Sum32aSnocValue(['1' as byte, '0' as byte, '.' as byte], '0' as byte, 0x5d33c4de, 0xa67f02aa);
    assert ['1' as byte, '0' as byte, '.' as byte] + ['0' as byte] == ['1' as byte, '0' as byte, '.' as byte, '0' as byte];
    Sum32aSnocValue(['1' as byte, '0' as byte, '.' as byte, '0' as byte], '.' as byte, 0xa67f02aa, 0x9df0f5cc);
    assert ['1' as byte, '0' as byte, '.' as byte, '0' as byte] + ['.' as byte] == ['1' as byte, '0' as byte, '.' as byte, '0' as byte, '.' as byte];
    Sum32aSnocValue(['1' as byte, '0' as byte, '.' as byte, '0' as byte, '.' as byte], '0' as byte, 0x9df0f5cc, 0x9e533bb4);
    assert ['1' as byte, '0' as byte, '.' as byte, '0' as byte, '.' as byte] + ['0' as byte] == ['1' as byte, '0' as byte, '.' as byte, '0' as byte, '.' as byte, '0' as byte];
    Sum32aSnocValue(['1' as byte, '0' as byte, '.' as byte, '0' as byte, '.' as byte, '0' as byte], '.' as byte, 0x9e533bb4, 0xd706d36e);
    assert ['1' as byte, '0' as byte, '.' as byte, '0' as byte, '.' as byte, '0' as byte] + ['.' as byte] == ['1' as byte, '0' as byte, '.' as byte, '0' as byte, '.' as byte, '0' as byte, '.' as byte];
    Sum32aSnocValue(['1' as byte, '0' as byte, '.' as byte, '0' as byte, '.' as byte, '0' as byte, '.' as byte], '5' as byte, 0xd706d36e, 0xdabeb841);
    assert ['1' as byte, '0' as byte, '.' as byte, '0' as byte, '.' as byte, '0' as byte, '.' as byte] + ['5' as byte] == ['1' as byte, '0' as byte, '.' as byte, '0' as byte, '.' as byte, '0' as byte, '.' as byte, '5' as byte];
  }
}
