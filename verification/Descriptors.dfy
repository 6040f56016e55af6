/** Segment descriptors and interrupt gates: the words `set_gd` and `set_id` store, and the
    fields the processor decodes from them (Intel SDM Volume 3A, sections 3.4.5 and 6.11). */
module Descriptors {
  import opened CTypes
  import opened Memory
  import opened Tables

  const TYPE_TASK: byte := 0x05

  datatype Segment = Segment(base: bv32, limit: bv32, pages: bool, big: bool, present: bool,
                             dpl: bv32, normal: bool, kind: bv32)

  datatype Gate = Gate(offset: bv32, selector: bv32, present: bool, dpl: bv32, kind: bv32)

  function SegmentLow(base: bv32, limit: bv32): bv32
  {
    ((base & 0xFFFF) << 16) | (limit & 0xFFFF)
  }

  function SegmentHigh(base: bv32, limit: bv32, g: byte, s: byte, kind: byte, dpl: byte): bv32
  {
    (base & 0xFF00_0000) | ((g & 1) as bv32 << 23) | 0x0040_8000 | (limit & 0x000F_0000)
    | ((dpl & 3) as bv32 << 13) | ((s & 1) as bv32 << 12) | ((kind & 0x0F) as bv32 << 8)
    | ((base & 0x00FF_0000) >> 16)
  }

  function DecodeSegment(low: bv32, high: bv32): Segment
  {
    Segment((high & 0xFF00_0000) | ((high & 0xFF) << 16) | (low >> 16),
            (high & 0x000F_0000) | (low & 0xFFFF),
            high & 0x0080_0000 != 0, high & 0x0040_0000 != 0, high & 0x8000 != 0,
            (high >> 13) & 3, high & 0x1000 != 0, (high >> 8) & 0xF)
  }

  function GateLow(selector: bv32, offset: bv32, kind: byte): bv32
  {
    if kind == TYPE_TASK then selector << 16 else (selector << 16) | (offset & 0xFFFF)
  }

  function GateHigh(offset: bv32, dpl: byte, kind: byte): bv32
  {
    (if kind == TYPE_TASK then 0 else offset & 0xFFFF_0000)
    | 0x8000 | ((dpl & 3) as bv32 << 13) | ((kind & 0x0F) as bv32 << 8)
  }

  function DecodeGate(low: bv32, high: bv32): Gate
  {
    Gate((high & 0xFFFF_0000) | (low & 0xFFFF), low >> 16, high & 0x8000 != 0,
         (high >> 13) & 3, (high >> 8) & 0xF)
  }

  /** Every field survives, cut to its width; a descriptor is always 32-bit and present. */
  lemma SegmentRoundTrip(base: bv32, limit: bv32, g: byte, s: byte, kind: byte, dpl: byte)
    ensures DecodeSegment(SegmentLow(base, limit), SegmentHigh(base, limit, g, s, kind, dpl))
         == Segment(base, limit & 0xF_FFFF, g & 1 == 1, true, true, (dpl & 3) as bv32, s & 1 == 1, (kind & 0xF) as bv32)
  {}

  lemma GateRoundTrip(selector: bv32, offset: bv32, dpl: byte, kind: byte)
    requires selector < 0x1_0000
    ensures DecodeGate(GateLow(selector, offset, kind), GateHigh(offset, dpl, kind))
         == Gate(if kind == TYPE_TASK then 0 else offset, selector, true, (dpl & 3) as bv32, (kind & 0xF) as bv32)
  {}

  /** The stored words, without decoding them: which bits of them hold which field. */
  lemma SegmentLayout(base: bv32, limit: bv32, g: byte, s: byte, kind: byte, dpl: byte)
    ensures var low, high := SegmentLow(base, limit), SegmentHigh(base, limit, g, s, kind, dpl);
            && low & 0xFFFF == limit & 0xFFFF && low >> 16 == base & 0xFFFF
            && high & 0xFF == (base >> 16) & 0xFF && high >> 24 == base >> 24
            && (high >> 16) & 0xF == (limit >> 16) & 0xF
            && (high >> 8) & 0xF == (kind & 0xF) as bv32 && (high >> 12) & 1 == (s & 1) as bv32
            && (high >> 13) & 3 == (dpl & 3) as bv32 && (high >> 15) & 1 == 1
            && (high >> 20) & 3 == 0 && (high >> 22) & 1 == 1 && (high >> 23) & 1 == (g & 1) as bv32
  {}

  lemma GateLayout(selector: bv32, offset: bv32, dpl: byte, kind: byte)
    requires selector < 0x1_0000
    ensures var low, high, stored := GateLow(selector, offset, kind), GateHigh(offset, dpl, kind), if kind == 0x05 then 0 else offset;
            && low & 0xFFFF == stored & 0xFFFF && low >> 16 == selector
            && high >> 16 == stored >> 16 && (high >> 15) & 1 == 1
            && (high >> 13) & 3 == (dpl & 3) as bv32 && (high >> 8) & 0xF == (kind & 0xF) as bv32
            && (high >> 12) & 1 == 0 && high & 0xFF == 0
  {}

  /** The two words of a table entry. */
  function SegmentWords(m: seq<byte>, n: nat): (bv32, bv32)
    requires GDT_BASE + 8 * n + 8 <= |m|
  {
    (Load32(m, 0x2000 + 8 * n), Load32(m, 0x2004 + 8 * n))
  }

  function GateWords(m: seq<byte>, n: nat): (bv32, bv32)
    requires IDT_BASE + 8 * n + 8 <= |m|
  {
    (Load32(m, 0x4000 + 8 * n), Load32(m, 0x4004 + 8 * n))
  }

  function SegmentAt(m: seq<byte>, n: nat): Segment
    requires GDT_BASE + 8 * n + 8 <= |m|
  {
    DecodeSegment(Load32(m, GDT_BASE + 8 * n), Load32(m, GDT_BASE + 8 * n + 4))
  }

  function GateAt(m: seq<byte>, n: nat): Gate
    requires IDT_BASE + 8 * n + 8 <= |m|
  {
    DecodeGate(Load32(m, IDT_BASE + 8 * n), Load32(m, IDT_BASE + 8 * n + 4))
  }

  /** Descriptor `num` and gate `g` share memory. */
  predicate Overlap(num: nat, g: nat)
  {
    GDT_BASE + 8 * num < IDT_BASE + 8 * g + 8 && IDT_BASE + 8 * g < GDT_BASE + 8 * num + 8
  }

  /** The guard of `set_gd` compares the number with a byte limit: of the numbers it admits,
      1024..1279 overwrite an interrupt gate. */
  lemma DescriptorHitsGateIff(num: nat)
    requires num <= GDT_LIMIT
    ensures (exists g :: 0 <= g < 256 && Overlap(num, g)) <==> 1024 <= num < 1280
  {
    if 1024 <= num < 1280 {
      assert Overlap(num, num - 1024);
    }
  }

  /** `set_gd`, for every descriptor number its guard admits. */
  method SetGd(mem: array<byte>, num: uint32, base: bv32, limit: bv32, g: byte, s: byte, kind: byte, dpl: byte)
    requires mem.Length == MEMORY_SIZE
    modifies mem
    ensures num > GDT_LIMIT ==> mem[..] == old(mem[..])
    ensures num <= GDT_LIMIT ==>
      && SegmentAt(mem[..], num)
         == Segment(base, limit & 0xF_FFFF, g & 1 == 1, true, true, (dpl & 3) as bv32, s & 1 == 1, (kind & 0xF) as bv32)
      && SegmentWords(mem[..], num) == (SegmentLow(base, limit), SegmentHigh(base, limit, g, s, kind, dpl))
      && SameOutside(old(mem[..]), mem[..], GDT_BASE + 8 * num, GDT_BASE + 8 * num + 8)
  {
    hide Join, SegmentLow, SegmentHigh, DecodeSegment;
    if num > GDT_LIMIT {
      return;
    }
    Store32(mem, GDT_BASE + num * 8, SegmentLow(base, limit));
    Store32(mem, GDT_BASE + num * 8 + 4, SegmentHigh(base, limit, g, s, kind, dpl));
    SegmentRoundTrip(base, limit, g, s, kind, dpl);
  }

  /** `set_id`, for every gate number its guard admits. */
  method SetId(mem: array<byte>, num: uint32, selector: bv32, offset: bv32, dpl: byte, kind: byte)
    requires mem.Length == MEMORY_SIZE && selector < 0x1_0000
    modifies mem
    ensures num > IDT_LIMIT ==> mem[..] == old(mem[..])
    ensures num <= IDT_LIMIT ==>
      && GateAt(mem[..], num)
         == Gate(if kind == TYPE_TASK then 0 else offset, selector, true, (dpl & 3) as bv32, (kind & 0xF) as bv32)
      && GateWords(mem[..], num) == (GateLow(selector, offset, kind), GateHigh(offset, dpl, kind))
      && SameOutside(old(mem[..]), mem[..], IDT_BASE + 8 * num, IDT_BASE + 8 * num + 8)
  {
    hide Join, GateLow, GateHigh, DecodeGate;
    if num > IDT_LIMIT {
      return;
    }
    Store32(mem, IDT_BASE + num * 8, GateLow(selector, offset, kind));
    Store32(mem, IDT_BASE + num * 8 + 4, GateHigh(offset, dpl, kind));
    GateRoundTrip(selector, offset, dpl, kind);
  }
}
