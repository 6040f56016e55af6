/** The kernel's bitmaps: 2^20 bits, written a byte at a time by XOR and scanned a 32-bit
    word at a time. A set bit is a used page or task number. */
module Bitmap {
  import opened CTypes
  import opened Memory

  const MEM_MAP_BASE: nat := 0x2_0000
  const TASK_MAP_BASE: nat := 0x4_9000
  const MAP_BITS: nat := 0x10_0000
  const MAP_BYTES: nat := 0x2_0000
  const NONE: uint32 := 0xFFFF_FFFF

  predicate Used(m: seq<byte>, base: nat, i: nat)
    requires i < MAP_BITS && base + MAP_BYTES <= |m|
  {
    BitOfByte(m[base + i / 8], i % 8)
  }

  ghost function Free(m: seq<byte>, base: nat): (s: set<nat>)
    requires base + MAP_BYTES <= |m|
  {
    set i: nat | i < MAP_BITS && !Used(m, base, i)
  }

  /** `r` is the greatest element of `s`, or the sentinel when `s` is empty. */
  ghost predicate IsGreatestOrNone(s: set<nat>, r: uint32)
  {
    if s == {} then r == NONE else r in s && forall i :: i in s ==> i <= r
  }

  /** The words the scans read hold exactly the bits the byte-wise writes flip. */
  lemma WordViewAgrees(m: seq<byte>, base: nat, i: nat, j: nat)
    requires i < MAP_BITS / 32 && j < 32 && base + MAP_BYTES <= |m|
    ensures BitOfWord(Load32(m, base + 4 * i), j) == Used(m, base, 32 * i + j)
  {
    hide BitOfWord, BitOfByte, Join;
    var a := base + 4 * i;
    BitOfJoined(m[a], m[a + 1], m[a + 2], m[a + 3], j);
    assert (32 * i + j) / 8 == 4 * i + j / 8 && (32 * i + j) % 8 == j % 8;
  }

  function Flipped(m: seq<byte>, base: nat, i: nat): seq<byte>
    requires i < MAP_BITS && base + MAP_BYTES <= |m|
  {
    m[base + i / 8 := Flip(m[base + i / 8], i % 8)]
  }

  /** A write flips bit `i` of its map and no other, keeps all memory outside the map's
      byte, and a second write of the same index undoes it. */
  lemma FlippedFlipsOneBit(m: seq<byte>, base: nat, i: nat)
    requires i < MAP_BITS && base + MAP_BYTES <= |m|
    ensures forall k :: 0 <= k < MAP_BITS ==> Used(Flipped(m, base, i), base, k) == (Used(m, base, k) != (k == i))
    ensures SameOutside(m, Flipped(m, base, i), base, base + MAP_BYTES)
    ensures Flipped(Flipped(m, base, i), base, i) == m
  {
    hide Flip, BitOfByte;
    FlipFlipsOneBit(m[base + i / 8], i % 8);
    forall k | 0 <= k < MAP_BITS
      ensures Used(Flipped(m, base, i), base, k) == (Used(m, base, k) != (k == i))
    {
      if k / 8 == i / 8 {
        assert k == i <==> k % 8 == i % 8;
      }
    }
  }

  /** As the scans read it, a byte-wise write of bit `i` flips bit i%32 of word i/32 and
      nothing else. */
  lemma WriteFlipsOneBitOfWords(m: seq<byte>, base: nat, i: nat, w: nat, j: nat)
    requires i < MAP_BITS && w < MAP_BITS / 32 && j < 32 && base + MAP_BYTES <= |m|
    ensures BitOfWord(Load32(Flipped(m, base, i), base + 4 * w), j)
         == (BitOfWord(Load32(m, base + 4 * w), j) != (w == i / 32 && j == i % 32))
  {
    hide BitOfWord, Used, Flipped, Load32;
    FlippedFlipsOneBit(m, base, i);
    WordViewAgrees(m, base, w, j);
    WordViewAgrees(Flipped(m, base, i), base, w, j);
  }

  /** `mem_map_write` and `task_num_write`, which differ only in `base`. */
  method MapWrite(mem: array<byte>, base: nat, i: uint32)
    requires i < MAP_BITS && base + MAP_BYTES <= mem.Length
    modifies mem
    ensures mem[..] == Flipped(old(mem[..]), base, i)
  {
    var mapByte := Flip(mem[base + i / 8], i % 8);
    mem[base + i / 8] := mapByte;
  }

  /** `get_available_page` and `get_available_task_num`: a scan of every bit, without a
      break, so that the last free bit wins. */
  method GetAvailable(mem: array<byte>, base: nat) returns (r: uint32)
    requires base + MAP_BYTES <= mem.Length
    ensures IsGreatestOrNone(Free(mem[..], base), r)
  {
    hide BitOfWord, BitOfByte, Join;
    r := NONE;
    for i := 0 to 32768
      invariant GreatestBelow(mem[..], base, r, 32 * i)
    {
      var section := Load32(mem[..], base + i * 4);
      for j := 0 to 32
        invariant GreatestBelow(mem[..], base, r, 32 * i + j)
      {
        WordViewAgrees(mem[..], base, i, j);
        if !BitOfWord(section, j) {
          r := i * 32 + j;
        }
      }
    }
    if r != NONE {
      assert r in Free(mem[..], base);
    }
  }

  ghost predicate GreatestBelow(m: seq<byte>, base: nat, r: uint32, n: nat)
    requires n <= MAP_BITS && base + MAP_BYTES <= |m|
  {
    && (r == NONE || (r < n && !Used(m, base, r)))
    && forall k :: 0 <= k < n && (r == NONE || r < k) ==> Used(m, base, k)
  }
}
