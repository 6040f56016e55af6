/** SHA-256 as FIPS 180-4 defines it: sections 4.1.2, 4.2.2, 5.1.1, 5.2.1, 5.3.3 and 6.2.2,
    for messages of any number of blocks. */
module Fips180 {
  import opened CTypes

  datatype Hash = Hash(a: bv32, b: bv32, c: bv32, d: bv32, e: bv32, f: bv32, g: bv32, h: bv32)

  const IV: Hash := Hash(0x6a09e667, 0xbb67ae85, 0x3c6ef372, 0xa54ff53a,
                         0x510e527f, 0x9b05688c, 0x1f83d9ab, 0x5be0cd19)

  const K_LOW: seq<bv32> :=
    [0x428a2f98, 0x71374491, 0xb5c0fbcf, 0xe9b5dba5, 0x3956c25b, 0x59f111f1, 0x923f82a4, 0xab1c5ed5,
     0xd807aa98, 0x12835b01, 0x243185be, 0x550c7dc3, 0x72be5d74, 0x80deb1fe, 0x9bdc06a7, 0xc19bf174,
     0xe49b69c1, 0xefbe4786, 0x0fc19dc6, 0x240ca1cc, 0x2de92c6f, 0x4a7484aa, 0x5cb0a9dc, 0x76f988da,
     0x983e5152, 0xa831c66d, 0xb00327c8, 0xbf597fc7, 0xc6e00bf3, 0xd5a79147, 0x06ca6351, 0x14292967]

  const K_HIGH: seq<bv32> :=
    [0x27b70a85, 0x2e1b2138, 0x4d2c6dfc, 0x53380d13, 0x650a7354, 0x766a0abb, 0x81c2c92e, 0x92722c85,
     0xa2bfe8a1, 0xa81a664b, 0xc24b8b70, 0xc76c51a3, 0xd192e819, 0xd6990624, 0xf40e3585, 0x106aa070,
     0x19a4c116, 0x1e376c08, 0x2748774c, 0x34b0bcb5, 0x391c0cb3, 0x4ed8aa4a, 0x5b9cca4f, 0x682e6ff3,
     0x748f82ee, 0x78a5636f, 0x84c87814, 0x8cc70208, 0x90befffa, 0xa4506ceb, 0xbef9a3f7, 0xc67178f2]

  function K(): (k: seq<bv32>)
    ensures |k| == 64
  {
    K_LOW + K_HIGH
  }

  function Xor3(x: bv32, y: bv32, z: bv32): bv32 { x ^ y ^ z }

  function BigSigma0(x: bv32): bv32 { Xor3(x.RotateRight(2), x.RotateRight(13), x.RotateRight(22)) }
  function BigSigma1(x: bv32): bv32 { Xor3(x.RotateRight(6), x.RotateRight(11), x.RotateRight(25)) }
  function SmallSigma0(x: bv32): bv32 { Xor3(x.RotateRight(7), x.RotateRight(18), x >> 3) }
  function SmallSigma1(x: bv32): bv32 { Xor3(x.RotateRight(17), x.RotateRight(19), x >> 10) }
  function Ch(x: bv32, y: bv32, z: bv32): bv32 { (x & y) ^ (!x & z) }
  function Maj(x: bv32, y: bv32, z: bv32): bv32 { (x & y) ^ (x & z) ^ (y & z) }

  // Addition modulo 2^32 of several words.
  function Sum2(x: bv32, y: bv32): bv32 { x + y }
  function Sum4(x: bv32, y: bv32, z: bv32, u: bv32): bv32 { x + y + z + u }
  function Sum5(x: bv32, y: bv32, z: bv32, u: bv32, v: bv32): bv32 { x + y + z + u + v }

  // ---------- padding and parsing ----------

  function BigEndian(n: nat, bytes: nat): (r: seq<byte>)
    ensures |r| == bytes
  {
    if bytes == 0 then [] else BigEndian(n / 0x100, bytes - 1) + [LowByte(n)]
  }

  function Zeros(n: nat): seq<byte> { seq(n, _ => 0) }

  /** 0x80, the smallest k >= 0 with n + 1 + k = 56 mod 64 zero bytes, the length in bits. */
  function PaddingFor(n: nat): (r: seq<byte>)
    ensures |r| == 9 + ZeroCount(n)
  {
    [0x80] + Zeros(ZeroCount(n)) + BitLength(n)
  }

  /** The length of an n-byte message in bits, as a 64-bit big-endian number. */
  function BitLength(n: nat): (r: seq<byte>)
    ensures |r| == 8
  {
    BigEndian(8 * n, 8)
  }

  function ZeroCount(n: nat): nat
  {
    (119 - n % 64) % 64
  }

  lemma ZeroCountFills(n: nat)
    ensures (n + 9 + ZeroCount(n)) % 64 == 0
  {
    var k := ZeroCount(n);
    assert k == 55 - n % 64 || k == 119 - n % 64;
  }

  lemma ShortZeroCount(n: nat)
    requires n <= 55
    ensures ZeroCount(n) == 55 - n
  {}

  function Padded(m: seq<byte>): (r: seq<byte>)
    ensures |r| % 64 == 0 && |r| > 0
  {
    ZeroCountFills(|m|);
    m + PaddingFor(|m|)
  }

  /** The padding of a message that fits one block. */
  function OneBlock(m: seq<byte>): (r: seq<byte>)
    requires |m| <= 55
    ensures |r| == 64
  {
    ShortZeroCount(|m|);
    Padded(m)
  }

  function Pack(b0: byte, b1: byte, b2: byte, b3: byte): bv32
  {
    ((b0 as bv32) << 24) | ((b1 as bv32) << 16) | ((b2 as bv32) << 8) | (b3 as bv32)
  }

  function BlockWords(block: seq<byte>): (r: seq<bv32>)
    requires |block| == 64
    ensures |r| == 16
  {
    seq(16, t requires 0 <= t < 16 =>
      Pack(block[4 * t], block[4 * t + 1], block[4 * t + 2], block[4 * t + 3]))
  }

  // ---------- the hash computation ----------

  /** W(t) from W(t-2), W(t-7), W(t-15) and W(t-16). */
  function Expansion(w2: bv32, w7: bv32, w15: bv32, w16: bv32): bv32
  {
    Sum4(SmallSigma1(w2), w7, SmallSigma0(w15), w16)
  }

  function NextWord(w: seq<bv32>): bv32
    requires |w| >= 16
  {
    var t := |w|;
    Expansion(w[t - 2], w[t - 7], w[t - 15], w[t - 16])
  }

  /** The first `n` words of the message schedule. */
  function Schedule(words: seq<bv32>, n: nat): (w: seq<bv32>)
    requires |words| == 16
    ensures |w| == n
  {
    if n == 0 then []
    else
      var w := Schedule(words, n - 1);
      w + [if n <= 16 then words[n - 1] else NextWord(w)]
  }

  function Round(s: Hash, k: bv32, w: bv32): Hash
  {
    var t1 := Sum5(s.h, BigSigma1(s.e), Ch(s.e, s.f, s.g), k, w);
    var t2 := Sum2(BigSigma0(s.a), Maj(s.a, s.b, s.c));
    Hash(Sum2(t1, t2), s.a, s.b, s.c, Sum2(s.d, t1), s.e, s.f, s.g)
  }

  function Rounds(s: Hash, w: seq<bv32>, n: nat): Hash
    requires n <= 64 && n <= |w|
  {
    if n == 0 then s else Round(Rounds(s, w, n - 1), K()[n - 1], w[n - 1])
  }

  function Add(s: Hash, t: Hash): Hash
  {
    Hash(Sum2(s.a, t.a), Sum2(s.b, t.b), Sum2(s.c, t.c), Sum2(s.d, t.d),
         Sum2(s.e, t.e), Sum2(s.f, t.f), Sum2(s.g, t.g), Sum2(s.h, t.h))
  }

  /** One block: the whole schedule first, then the 64 rounds. */
  function Compress(s: Hash, block: seq<byte>): Hash
    requires |block| == 64
  {
    Add(Rounds(s, Schedule(BlockWords(block), 64), 64), s)
  }

  function HashBlocks(s: Hash, bytes: seq<byte>): Hash
    requires |bytes| % 64 == 0
    decreases |bytes|
  {
    if bytes == [] then s else HashBlocks(Compress(s, bytes[..64]), bytes[64..])
  }

  function Sha256(m: seq<byte>): Hash
  {
    HashBlocks(IV, Padded(m))
  }

  // ---------- the padding is injective ----------

  lemma {:induction false} BigEndianIsInjective(n: nat, o: nat, bytes: nat)
    requires BigEndian(n, bytes) == BigEndian(o, bytes)
    requires n < Power256(bytes) && o < Power256(bytes)
    ensures n == o
  {
    hide LowByte;
    if bytes != 0 {
      var r, s := BigEndian(n, bytes), BigEndian(o, bytes);
      assert r[bytes - 1] == s[bytes - 1] && r[..bytes - 1] == s[..bytes - 1];
      assert r[..bytes - 1] == BigEndian(n / 0x100, bytes - 1);
      assert s[..bytes - 1] == BigEndian(o / 0x100, bytes - 1);
      BigEndianIsInjective(n / 0x100, o / 0x100, bytes - 1);
      LowByteDetermines(n, o);
    }
  }

  function Power256(n: nat): nat
  {
    if n == 0 then 1 else 0x100 * Power256(n - 1)
  }

  lemma LowByteDetermines(n: nat, o: nat)
    requires LowByte(n) == LowByte(o)
    ensures n % 0x100 == o % 0x100
  {
    hide ByteFrom;
    ByteFromValue(n % 0x100);
    ByteFromValue(o % 0x100);
  }

  lemma LengthField(m: seq<byte>)
    ensures var p := Padded(m); |p| >= 8 && p[|p| - 8..] == BitLength(|m|)
  {
    hide BitLength, Zeros, ZeroCount;
    var r := PaddingFor(|m|);
    assert r[|r| - 8..] == BitLength(|m|);
  }

  /** Different messages have different paddings (below 2^61 bytes, the limit of the
      standard). */
  lemma PaddingIsInjective(m: seq<byte>, o: seq<byte>)
    requires |m| < 0x2000_0000_0000_0000 && |o| < 0x2000_0000_0000_0000
    ensures Padded(m) == Padded(o) <==> m == o
  {
    var p := Padded(m);
    if p == Padded(o) {
      LengthField(m);
      LengthField(o);
      assert Power256(8) == 0x1_0000_0000_0000_0000 by {
        assert Power256(4) == 0x1_0000_0000;
      }
      BigEndianIsInjective(8 * |m|, 8 * |o|, 8);
      assert p[..|m|] == m && p[..|o|] == o;
    }
  }
}
