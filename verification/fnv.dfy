/**
 * 64-bit FNV-1a (IETF draft-eastlake-fnv, section 2): start from the offset
 * basis, and for every input octet XOR it into the low bits of the state and
 * multiply the state by the FNV prime modulo 2^64. `bv64` multiplication
 * wraps modulo 2^64, as Go's `uint64` does.
 */
module Fnv {
  import opened Utf8

  /** The 64-bit FNV offset basis. */
  const OffsetBasis: bv64 := 0xcbf29ce484222325

  /** The 64-bit FNV prime, 2^40 + 2^8 + 0xb3. */
  const Prime: bv64 := 0x100000001b3

  /** One FNV-1a round: XOR the octet in, then multiply. */
  function Step(h: bv64, b: byte): bv64
  {
    (h ^ ((b as bv8) as bv64)) * Prime
  }

  /** The state after feeding `data` to a hash whose state is `h`. */
  function Fold(h: bv64, data: seq<byte>): bv64
    decreases |data|
  {
    if data == [] then h else Fold(Step(h, data[0]), data[1..])
  }

  /** `fnv.New64a()`, `Write(data)`, `Sum64()`. */
  function Sum64(data: seq<byte>): bv64
  {
    Fold(OffsetBasis, data)
  }

  /** Writing `a` and then `b` leaves the same state as writing `a + b`: the hash streams. */
  lemma {:induction false} FoldAppend(h: bv64, a: seq<byte>, b: seq<byte>)
    ensures Fold(h, a + b) == Fold(Fold(h, a), b)
    decreases |a|
  {
    if a == [] {
      assert a + b == b;
    } else {
      assert (a + b)[0] == a[0];
      assert (a + b)[1..] == a[1..] + b;
      FoldAppend(Step(h, a[0]), a[1..], b);
    }
  }

  /** The last octet is the last round: `Sum64(a + [x])` is one `Step` after `Sum64(a)`. */
  lemma SumSnoc(a: seq<byte>, x: byte)
    ensures Sum64(a + [x]) == Step(Sum64(a), x)
  {
    FoldAppend(OffsetBasis, a, [x]);
  }

  /** Known FNV-1a 64 values: the empty input hashes to the offset basis, "a" and "foobar" to their published values. */
  lemma TestVectors()
    ensures Sum64([]) == OffsetBasis
    ensures Sum64([0x61]) == 0xaf63dc4c8601ec8c
    ensures Sum64([0x66, 0x6f, 0x6f, 0x62, 0x61, 0x72]) == 0x85944171f73967e8
  {
    assert Step(OffsetBasis, 0x61) == 0xaf63dc4c8601ec8c;
    assert Fold(0xaf63dc4c8601ec8c, []) == 0xaf63dc4c8601ec8c;
    var s: seq<byte> := [0x66, 0x6f, 0x6f, 0x62, 0x61, 0x72];
    assert Step(OffsetBasis, 0x66) == 0xaf63db4c8601ead9;
    assert Step(0xaf63db4c8601ead9, 0x6f) == 0x08985907b541d342;
    assert Step(0x08985907b541d342, 0x6f) == 0xdcb27518fed9d577;
    assert Step(0xdcb27518fed9d577, 0x62) == 0xdd120e790c2512af;
    assert Step(0xdd120e790c2512af, 0x61) == 0xcac165afa2fef40a;
    assert Step(0xcac165afa2fef40a, 0x72) == 0x85944171f73967e8;
    assert Fold(0x85944171f73967e8, s[6..]) == 0x85944171f73967e8;
    assert Fold(0xcac165afa2fef40a, s[5..]) == 0x85944171f73967e8;
    assert Fold(0xdd120e790c2512af, s[4..]) == 0x85944171f73967e8;
    assert Fold(0xdcb27518fed9d577, s[3..]) == 0x85944171f73967e8;
    assert Fold(0x08985907b541d342, s[2..]) == 0x85944171f73967e8;
    assert Fold(0xaf63db4c8601ead9, s[1..]) == 0x85944171f73967e8;
  }
}
