/** Low memory as the kernel sees it: bytes, little-endian 32-bit words, and single bits.
    Addresses and indexes are numbers; contents are bit-vectors. */
module Memory {
  import opened CTypes

  const MEMORY_SIZE: nat := 0xA_0000    // the low 640 KB

  function Join(b0: byte, b1: byte, b2: byte, b3: byte): bv32
  {
    (b0 as bv32) | ((b1 as bv32) << 8) | ((b2 as bv32) << 16) | ((b3 as bv32) << 24)
  }

  function Byte0(w: bv32): byte { (w & 0xFF) as byte }
  function Byte1(w: bv32): byte { ((w >> 8) & 0xFF) as byte }
  function Byte2(w: bv32): byte { ((w >> 16) & 0xFF) as byte }
  function Byte3(w: bv32): byte { ((w >> 24) & 0xFF) as byte }

  /** The word whose value is `n`. */
  function WordOf(n: nat): bv32
    requires n < 0x1_0000_0000
  {
    n as bv32
  }

  lemma WordOfValue(w: bv32, n: nat)
    requires w as nat == n
    ensures n < 0x1_0000_0000 && WordOf(n) == w
  {
    assert (w as nat) as bv32 == w;
  }

  function Load32(m: seq<byte>, a: nat): bv32
    requires a + 4 <= |m|
  {
    Join(m[a], m[a + 1], m[a + 2], m[a + 3])
  }

  /** `m` and `n` agree outside [lo, hi). */
  ghost predicate SameOutside(m: seq<byte>, n: seq<byte>, lo: nat, hi: nat)
  {
    |m| == |n| && forall k :: 0 <= k < |m| && (k < lo || hi <= k) ==> n[k] == m[k]
  }

  lemma JoinOfBytes(w: bv32)
    ensures Join(Byte0(w), Byte1(w), Byte2(w), Byte3(w)) == w
  {}

  lemma BytesOfJoin(b0: byte, b1: byte, b2: byte, b3: byte)
    ensures var w := Join(b0, b1, b2, b3); b0 == Byte0(w) && b1 == Byte1(w) && b2 == Byte2(w) && b3 == Byte3(w)
  {}

  /** `*(uint32_t *)a = w` */
  method Store32(mem: array<byte>, a: nat, w: bv32)
    requires a + 4 <= mem.Length
    modifies mem
    ensures Load32(mem[..], a) == w
    ensures SameOutside(old(mem[..]), mem[..], a, a + 4)
  {
    hide Join, Byte0, Byte1, Byte2, Byte3;
    mem[a], mem[a + 1], mem[a + 2], mem[a + 3] := Byte0(w), Byte1(w), Byte2(w), Byte3(w);
    JoinOfBytes(w);
  }

  // ---------- single bits ----------

  predicate BitOfByte(b: byte, k: nat)
    requires k < 8
  {
    (b >> k) & 1 == 1
  }

  predicate BitOfWord(w: bv32, j: nat)
    requires j < 32
  {
    (w >> j) & 1 == 1
  }

  /** `(1 << k) ^ b` */
  function Flip(b: byte, k: nat): byte
    requires k < 8
  {
    (1 << k) ^ b
  }

  function Mask(k: nat): byte
    requires k < 8
  {
    if k == 0 then 1 else if k == 1 then 2 else if k == 2 then 4 else if k == 3 then 8
    else if k == 4 then 16 else if k == 5 then 32 else if k == 6 then 64 else 128
  }

  lemma FlipByMask(b: byte, k: nat)
    requires k < 8
    ensures Flip(b, k) == Mask(k) ^ b
  {
    assert (1 as byte) << k == Mask(k) by {
      if k == 0 {} else if k == 1 {} else if k == 2 {} else if k == 3 {}
      else if k == 4 {} else if k == 5 {} else if k == 6 {} else {}
    }
  }

  lemma MaskFlipsOneBit(b: byte, k: nat, j: nat)
    requires k < 8 && j < 8
    ensures BitOfByte(Mask(k) ^ b, j) == (BitOfByte(b, j) != (j == k))
  {
    if j == 0 {} else if j == 1 {} else if j == 2 {} else if j == 3 {}
    else if j == 4 {} else if j == 5 {} else if j == 6 {} else {}
  }

  /** The XOR flips bit `k` and no other, and undoes itself. */
  lemma FlipFlipsOneBit(b: byte, k: nat)
    requires k < 8
    ensures forall j :: 0 <= j < 8 ==> BitOfByte(Flip(b, k), j) == (BitOfByte(b, j) != (j == k))
    ensures Flip(Flip(b, k), k) == b
  {
    hide BitOfByte, Flip, Mask;
    FlipByMask(b, k);
    FlipByMask(Flip(b, k), k);
    assert Mask(k) ^ (Mask(k) ^ b) == b;
    forall j | 0 <= j < 8
      ensures BitOfByte(Flip(b, k), j) == (BitOfByte(b, j) != (j == k))
    {
      MaskFlipsOneBit(b, k, j);
    }
  }

  /** Bit `j` of a little-endian word is bit `j % 8` of its byte `j / 8`. */
  lemma BitOfJoined(b0: byte, b1: byte, b2: byte, b3: byte, j: nat)
    requires j < 32
    ensures BitOfWord(Join(b0, b1, b2, b3), j)
         == BitOfByte(if j < 8 then b0 else if j < 16 then b1 else if j < 24 then b2 else b3, j % 8)
  {
    hide BitOfWord, BitOfByte, Join;
    if j < 8 {
      BitOfJoined0(b0, b1, b2, b3, j);
    } else if j < 16 {
      BitOfJoined1(b0, b1, b2, b3, j);
    } else if j < 24 {
      BitOfJoined2(b0, b1, b2, b3, j);
    } else {
      BitOfJoined3(b0, b1, b2, b3, j);
    }
  }

  lemma BitOfJoined0(b0: byte, b1: byte, b2: byte, b3: byte, j: nat)
    requires j < 8
    ensures BitOfWord(Join(b0, b1, b2, b3), j) == BitOfByte(b0, j)
  {
    if j == 0 {} else if j == 1 {} else if j == 2 {} else if j == 3 {}
    else if j == 4 {} else if j == 5 {} else if j == 6 {} else {}
  }

  lemma BitOfJoined1(b0: byte, b1: byte, b2: byte, b3: byte, j: nat)
    requires 8 <= j < 16
    ensures BitOfWord(Join(b0, b1, b2, b3), j) == BitOfByte(b1, j - 8)
  {
    if j == 8 {} else if j == 9 {} else if j == 10 {} else if j == 11 {}
    else if j == 12 {} else if j == 13 {} else if j == 14 {} else {}
  }

  lemma BitOfJoined2(b0: byte, b1: byte, b2: byte, b3: byte, j: nat)
    requires 16 <= j < 24
    ensures BitOfWord(Join(b0, b1, b2, b3), j) == BitOfByte(b2, j - 16)
  {
    if j == 16 {} else if j == 17 {} else if j == 18 {} else if j == 19 {}
    else if j == 20 {} else if j == 21 {} else if j == 22 {} else {}
  }

  lemma BitOfJoined3(b0: byte, b1: byte, b2: byte, b3: byte, j: nat)
    requires 24 <= j < 32
    ensures BitOfWord(Join(b0, b1, b2, b3), j) == BitOfByte(b3, j - 24)
  {
    if j == 24 {} else if j == 25 {} else if j == 26 {} else if j == 27 {}
    else if j == 28 {} else if j == 29 {} else if j == 30 {} else {}
  }
}
