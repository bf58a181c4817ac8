/**
 * The packed, append-only bit sequence used as the key type for opcodes and
 * arguments.  Bits are stored least-significant-bit first in a sequence of
 * bytes, with `bitIndex` counting the bits already used in the last byte; the
 * empty value has no bytes and `bitIndex == 8`.  The ghost field `bits` is the
 * abstract value, and the rest of the model works on that value.
 */
module BitStrings {

  type bit = b: int | 0 <= b <= 1

  /** `size_t` arithmetic wraps modulo 2^64. */
  const SizeModulus: int := 0x1_0000_0000_0000_0000

  /** Multiplier of the order-sensitive hash folds. */
  const HashMultiplier: int := 10007

  /** Mask of the bit that addBit sets at position i of the last byte. */
  function BitMask(x: bit, i: int): bv8
    requires 0 <= i < 8
  {
    if x == 1 then (1 as bv8) << i else 0
  }

  /** The byte whose bit j is c[j]; bits at and above |c| are zero. */
  function ByteOf(c: seq<bit>): bv8
    requires |c| <= 8
  {
    if c == [] then 0
    else ByteOf(c[..|c| - 1]) ^ BitMask(c[|c| - 1], |c| - 1)
  }

  /** Bit j of ByteOf(c) is c[j] inside the chunk and zero beyond it. */
  lemma {:induction false} ByteOfBit(c: seq<bit>, j: nat)
    requires |c| <= 8 && j < 8
    ensures (ByteOf(c) >> j) & 1 == if j < |c| then c[j] as bv8 else 0
  {
    if c != [] {
      var p := c[..|c| - 1];
      ByteOfBit(p, j);
      if j < |p| {
        assert p[j] == c[j];
      }
    }
  }

  /** The bits stored in byte k of a bit sequence. */
  function Chunk(bits: seq<bit>, k: nat): (c: seq<bit>)
    requires 8 * k <= |bits|
    ensures |c| <= 8
  {
    if |bits| < 8 * k + 8 then bits[8 * k..] else bits[8 * k..8 * k + 8]
  }

  /** Number of bytes needed for n bits. */
  function ByteCount(n: nat): nat
  {
    (n + 7) / 8
  }

  /**
   * The order-sensitive hash fold of the source: start from seed and apply
   * `sol = 10007 * sol + x` for each x, in size_t arithmetic.
   */
  function HashFold(seed: int, xs: seq<int>): (h: nat)
    ensures h < SizeModulus
  {
    if xs == [] then seed % SizeModulus
    else (HashMultiplier * HashFold(seed, xs[..|xs| - 1]) + xs[|xs| - 1]) % SizeModulus
  }

  /** BitStringHash: the fold over the bits, from 0. */
  function HashOf(bits: seq<bit>): nat
  {
    HashFold(0, bits)
  }

  /**
   * The representation invariant: bytes pack `bits` LSB first, unused bits
   * stay zero, and bitIndex (1 to 8) counts the bits used in the last byte.
   */
  ghost predicate Packs(bytes: seq<bv8>, bitIndex: int, bits: seq<bit>)
  {
    1 <= bitIndex <= 8 && |bits| == 8 * (|bytes| - 1) + bitIndex &&
    forall k :: 0 <= k < |bytes| ==> PackedByte(bytes, bits, k)
  }

  /** Byte k holds chunk k of the bits. */
  ghost predicate PackedByte(bytes: seq<bv8>, bits: seq<bit>, k: int)
  {
    0 <= k < |bytes| && 8 * k <= |bits| && bytes[k] == ByteOf(Chunk(bits, k))
  }

  /** The invariant fixes the number of bytes: enough for the bits and no more. */
  lemma PacksByteCount(bytes: seq<bv8>, bitIndex: int, bits: seq<bit>)
    requires Packs(bytes, bitIndex, bits)
    ensures |bytes| == ByteCount(|bits|)
    ensures bits == [] <==> bytes == []
  {
  }

  /** Appending a bit extends the chunk it falls in and leaves every other chunk alone. */
  lemma ChunkAppend(bits: seq<bit>, x: bit, k: nat)
    requires 8 * k <= |bits|
    ensures Chunk(bits + [x], k) == if |bits| < 8 * k + 8 then Chunk(bits, k) + [x] else Chunk(bits, k)
  {
  }

  /** Setting the next bit of a partial byte is an XOR with that bit's mask. */
  lemma ByteOfAppend(c: seq<bit>, x: bit)
    requires |c| < 8
    ensures ByteOf(c + [x]) == ByteOf(c) ^ BitMask(x, |c|)
  {
    assert (c + [x])[..|c|] == c;
  }

  /** A packing whose last byte still has room: i0 bits of it are used (possibly none). */
  ghost predicate PacksOpen(b0: seq<bv8>, i0: int, bits: seq<bit>)
  {
    0 <= i0 < 8 && |bits| == 8 * (|b0| - 1) + i0 &&
    forall k :: 0 <= k < |b0| ==> PackedByte(b0, bits, k)
  }

  /** When the cursor is at 8, addBit first pushes a zero byte; otherwise the last byte has room. */
  lemma PacksToOpen(bytes: seq<bv8>, bitIndex: int, bits: seq<bit>)
    requires Packs(bytes, bitIndex, bits)
    ensures bitIndex == 8 ==> PacksOpen(bytes + [0], 0, bits)
    ensures bitIndex != 8 ==> PacksOpen(bytes, bitIndex, bits)
  {
    if bitIndex == 8 {
      var b0 := bytes + [0];
      forall k | 0 <= k < |b0|
        ensures PackedByte(b0, bits, k)
      {
        if k == |bytes| {
          assert Chunk(bits, k) == [];
        } else {
          assert PackedByte(bytes, bits, k);
        }
      }
    }
  }

  /** The vector with its last byte XOR-ed with m: `*bytes.rbegin() ^= m`. */
  function XorLast(bs: seq<bv8>, m: bv8): (r: seq<bv8>)
    requires |bs| > 0
    ensures |r| == |bs| && r[|r| - 1] == bs[|bs| - 1] ^ m
    ensures forall k :: 0 <= k < |bs| - 1 ==> r[k] == bs[k]
  {
    bs[..|bs| - 1] + [bs[|bs| - 1] ^ m]
  }

  /** The open byte holds the last, partial chunk, which the new bit extends. */
  lemma LastChunk(b0: seq<bv8>, i0: int, bits: seq<bit>, x: bit)
    requires PacksOpen(b0, i0, bits)
    ensures 0 <= 8 * (|b0| - 1) <= |bits| && |Chunk(bits, |b0| - 1)| == i0 < 8
    ensures b0[|b0| - 1] == ByteOf(Chunk(bits, |b0| - 1))
    ensures Chunk(bits + [x], |b0| - 1) == Chunk(bits, |b0| - 1) + [x]
  {
    assert PackedByte(b0, bits, |b0| - 1);
    ChunkAppend(bits, x, |b0| - 1);
  }

  /** XOR-ing the open byte with the mask for x gives the byte of the extended chunk. */
  lemma OpenLastByte(b0: seq<bv8>, i0: int, bits: seq<bit>, x: bit)
    requires PacksOpen(b0, i0, bits)
    ensures 0 <= i0 < 8 && 0 <= 8 * (|b0| - 1) <= |bits + [x]|
    ensures b0[|b0| - 1] ^ BitMask(x, i0) == ByteOf(Chunk(bits + [x], |b0| - 1))
  {
    var last := |b0| - 1;
    LastChunk(b0, i0, bits, x);
    ByteOfAppend(Chunk(bits, last), x);
  }

  /** Setting bit i0 of the open byte when x is 1 packs the longer sequence. */
  lemma OpenAppend(b0: seq<bv8>, i0: int, bits: seq<bit>, x: bit)
    requires PacksOpen(b0, i0, bits)
    ensures 0 <= i0 < 8 && 0 < |b0|
    ensures Packs(XorLast(b0, BitMask(x, i0)), i0 + 1, bits + [x])
  {
    var last := |b0| - 1;
    var nb := bits + [x];
    OpenLastByte(b0, i0, bits, x);
    var bytes' := XorLast(b0, BitMask(x, i0));
    forall k | 0 <= k < |bytes'|
      ensures PackedByte(bytes', nb, k)
    {
      if k < last {
        assert PackedByte(b0, bits, k);
        ChunkAppend(bits, x, k);
      }
    }
  }

  /** addBit with the bit set: the open byte gets bit i0. */
  lemma SetBitPacks(b0: seq<bv8>, i0: int, bits: seq<bit>, x: bit)
    requires PacksOpen(b0, i0, bits) && x == 1
    ensures 0 <= i0 < 8 && 0 < |b0|
    ensures Packs(XorLast(b0, (1 as bv8) << i0), i0 + 1, bits + [x])
  {
    OpenAppend(b0, i0, bits, x);
  }

  /** addBit with the bit clear: the bytes stay as they are. */
  lemma ClearBitPacks(b0: seq<bv8>, i0: int, bits: seq<bit>, x: bit)
    requires PacksOpen(b0, i0, bits) && x == 0
    ensures Packs(b0, i0 + 1, bits + [x])
  {
    OpenAppend(b0, i0, bits, x);
    assert XorLast(b0, 0) == b0 by {
      assert b0[|b0| - 1] ^ 0 == b0[|b0| - 1];
    }
  }

  class BitString {
    var bytes: seq<bv8>
    var bitIndex: int
    ghost var bits: seq<bit>

    ghost predicate Valid()
      reads this
    {
      Packs(bytes, bitIndex, bits)
    }

    /** The empty bit string: no bytes and a full (virtual) last byte. */
    constructor ()
      ensures Valid() && bits == []
      ensures bytes == [] && bitIndex == 8
    {
      bytes := [];
      bitIndex := 8;
      bits := [];
    }

    /**
     * Number of bits.  The source computes ((bytes.size() - 1) << 3) + bitIndex,
     * which for the empty value is 0 only by size_t wrap-around; over the
     * integers the same formula gives 0 directly.
     */
    function Size(): (n: int)
      reads this
      requires Valid()
      ensures n == |bits|
    {
      (|bytes| - 1) * 8 + bitIndex
    }

    /** Bit idx, read from byte idx >> 3 at position idx & 7. */
    function GetBit(idx: int): (b: int)
      reads this
      requires Valid() && 0 <= idx < Size()
      ensures b == bits[idx]
    {
      assert PackedByte(bytes, bits, idx / 8);
      ByteOfBit(Chunk(bits, idx / 8), idx % 8);
      ((bytes[idx / 8] >> (idx % 8)) & 1) as int
    }

    /** Appends the low bit of b (the source tests `bit & 1`). */
    method AddBit(b: int)
      requires Valid()
      modifies this
      ensures Valid()
      ensures bits == old(bits) + [b % 2]
    {
      ghost var x: bit := b % 2;
      var bs, bi := bytes, bitIndex;
      PacksToOpen(bs, bi, bits);
      if bi == 8 {
        bs := bs + [0];
        bi := 0;
      }
      if b % 2 == 1 {
        SetBitPacks(bs, bi, bits, x);
        bs := XorLast(bs, (1 as bv8) << bi);
      } else {
        ClearBitPacks(bs, bi, bits, x);
      }
      bytes, bitIndex, bits := bs, bi + 1, bits + [x];
    }
  }

  /** Two valid bit strings have equal bytes and bitIndex exactly when they hold the same bits. */
  lemma RepresentationIsExact(s1: BitString, s2: BitString)
    requires s1.Valid() && s2.Valid()
    ensures (s1.bytes == s2.bytes && s1.bitIndex == s2.bitIndex) <==> s1.bits == s2.bits
  {
    if s1.bytes == s2.bytes && s1.bitIndex == s2.bitIndex {
      assert |s1.bits| == |s2.bits|;
      forall i | 0 <= i < |s1.bits|
        ensures s1.bits[i] == s2.bits[i]
      {
        assert s1.GetBit(i) == s2.GetBit(i);
      }
    }
    if s1.bits == s2.bits {
      assert |s1.bytes| == |s2.bytes|;
      forall k | 0 <= k < |s1.bytes|
        ensures s1.bytes[k] == s2.bytes[k]
      {
        assert PackedByte(s1.bytes, s1.bits, k) && PackedByte(s2.bytes, s2.bits, k);
      }
    }
  }

  /** The byte loop of operator== and operator!=: equal lengths, compared position by position. */
  method SameBytes(a: seq<bv8>, b: seq<bv8>) returns (r: bool)
    requires |a| == |b|
    ensures r <==> a == b
  {
    for i := 0 to |a|
      invariant forall k :: 0 <= k < i ==> a[k] == b[k]
    {
      if a[i] != b[i] {
        return false;
      }
    }
    return true;
  }

  /** operator==: compares the byte counts, bitIndex and the raw bytes. */
  method Equal(s1: BitString, s2: BitString) returns (r: bool)
    requires s1.Valid() && s2.Valid()
    ensures r <==> s1.bits == s2.bits
  {
    RepresentationIsExact(s1, s2);
    if |s1.bytes| != |s2.bytes| {
      return false;
    }
    if s1.bitIndex != s2.bitIndex {
      return false;
    }
    r := SameBytes(s1.bytes, s2.bytes);
  }

  /** operator!=: the same comparisons with the verdicts swapped. */
  method NotEqual(s1: BitString, s2: BitString) returns (r: bool)
    requires s1.Valid() && s2.Valid()
    ensures r <==> s1.bits != s2.bits
  {
    RepresentationIsExact(s1, s2);
    if |s1.bytes| != |s2.bytes| {
      return true;
    }
    if s1.bitIndex != s2.bitIndex {
      return true;
    }
    var same := SameBytes(s1.bytes, s2.bytes);
    r := !same;
  }

  /** BitStringHash: the fold over getBit(0) .. getBit(size() - 1). */
  method Hash(s: BitString) returns (h: int)
    requires s.Valid()
    ensures h == HashOf(s.bits)
  {
    h := 0;
    var n := s.Size();
    var i := 0;
    while i < n
      invariant 0 <= i <= n
      invariant h == HashOf(s.bits[..i])
    {
      assert s.bits[..i + 1][..i] == s.bits[..i];
      h := (HashMultiplier * h + s.GetBit(i)) % SizeModulus;
      assert h == HashFold(0, s.bits[..i + 1]);
      i := i + 1;
    }
    assert s.bits[..n] == s.bits;
  }

  /** operator== implies equal BitStringHash values. */
  lemma HashRespectsEquality(s1: BitString, s2: BitString)
    requires s1.Valid() && s2.Valid()
    requires s1.bytes == s2.bytes && s1.bitIndex == s2.bitIndex
    ensures HashOf(s1.bits) == HashOf(s2.bits)
  {
    RepresentationIsExact(s1, s2);
  }
}
