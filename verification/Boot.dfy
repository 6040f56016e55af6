/** The boot sequence on low memory: clearing, descriptor tables, page tables and the page
    bitmap. Every builder stays in its own region, so that all of it holds together. */
module Boot {
  import opened CTypes
  import opened Memory
  import opened Bitmap
  import opened Tables
  import opened Descriptors
  import Tasks
  import TaskRuns

  /** Where the linker put the interrupt service routines. */
  datatype Handlers = Handlers(default: bv32, de: bv32, ss: bv32, gp: bv32,
                               ps2: bv32, server: bv32, video: bv32, device: bv32)

  /** The words of vector `n`: a present 32-bit interrupt gate to `handler` in segment 8,
      privilege level 3 if user programs may raise it and 0 if not. */
  ghost predicate Vector(m: seq<byte>, n: nat, handler: bv32, user: bool)
    requires |m| == MEMORY_SIZE && n < 256
  {
    GateWords(m, n) == (0x0008_0000 | (handler & 0xFFFF), (handler & 0xFFFF_0000) | if user then 0xEE00 else 0x8E00)
  }

  ghost predicate IdtReady(m: seq<byte>, h: Handlers)
    requires |m| == MEMORY_SIZE
  {
    && Vector(m, 0x00, h.de, false) && Vector(m, 0x0C, h.ss, false) && Vector(m, 0x0D, h.gp, false)
    && Vector(m, 0x21, h.ps2, true) && Vector(m, 0x40, h.server, true)
    && Vector(m, 0x41, h.video, true) && Vector(m, 0x42, h.device, true)
    && forall n :: 0 <= n < 256 && n !in {0x00, 0x0C, 0x0D, 0x21, 0x40, 0x41, 0x42} ==> Vector(m, n, h.default, false)
  }

  /** What the processor reads from such a vector. */
  lemma VectorDecodes(m: seq<byte>, n: nat, handler: bv32, user: bool)
    requires |m| == MEMORY_SIZE && n < 256 && Vector(m, n, handler, user)
    ensures GateAt(m, n) == Gate(handler, 8, true, if user then 3 else 0, 0xE)
  {
    hide Join;
    DecodeWords(handler, user);
  }

  lemma DecodeWords(handler: bv32, user: bool)
    ensures DecodeGate(0x0008_0000 | (handler & 0xFFFF), (handler & 0xFFFF_0000) | if user then 0xEE00 else 0x8E00)
         == Gate(handler, 8, true, if user then 3 else 0, 0xE)
  {}

  lemma LowWord(handler: bv32)
    ensures GateLow(8, handler, 0xE) == 0x0008_0000 | (handler & 0xFFFF)
  {}

  lemma SystemHighWord(handler: bv32)
    ensures GateHigh(handler, 0, 0xE) == (handler & 0xFFFF_0000) | 0x8E00
  {}

  lemma UserHighWord(handler: bv32)
    ensures GateHigh(handler, 3, 0xE) == (handler & 0xFFFF_0000) | 0xEE00
  {}

  /** Flat 4 GB kernel code and data segments between two base-0, limit-0 entries. The code
      calls those null, but stores the present bit in them as in every descriptor. */
  ghost predicate GdtReady(m: seq<byte>)
    requires |m| == MEMORY_SIZE
  {
    && SegmentWords(m, 0) == (0, 0x0040_8000) && SegmentWords(m, 1) == (0x0000_FFFF, 0x00CF_9A00)
    && SegmentWords(m, 2) == (0x0000_FFFF, 0x00CF_9200) && SegmentWords(m, 3) == (0, 0x0040_8000)
  }

  /** What the processor reads from them, and the bytes of the two kernel segments. */
  lemma SegmentsDecode(m: seq<byte>)
    requires |m| == MEMORY_SIZE && GdtReady(m)
    ensures SegmentAt(m, 0) == SegmentAt(m, 3) == Segment(0, 0, false, true, true, 0, false, 0)
    ensures SegmentAt(m, 1) == Segment(0, 0xF_FFFF, true, true, true, 0, true, 0xA)
    ensures SegmentAt(m, 2) == Segment(0, 0xF_FFFF, true, true, true, 0, true, 0x2)
    ensures m[0x2008..0x2010] == [0xFF, 0xFF, 0x00, 0x00, 0x00, 0x9A, 0xCF, 0x00]
    ensures m[0x2010..0x2018] == [0xFF, 0xFF, 0x00, 0x00, 0x00, 0x92, 0xCF, 0x00]
  {
    SegmentBytes(m, 1);
    SegmentBytes(m, 2);
    hide Join;
  }

  lemma SegmentBytes(m: seq<byte>, n: nat)
    requires |m| == MEMORY_SIZE && n < 4
    ensures var w, a := SegmentWords(m, n), 0x2000 + 8 * n;
            && m[a] == Byte0(w.0) && m[a + 1] == Byte1(w.0) && m[a + 2] == Byte2(w.0) && m[a + 3] == Byte3(w.0)
            && m[a + 4] == Byte0(w.1) && m[a + 5] == Byte1(w.1) && m[a + 6] == Byte2(w.1) && m[a + 7] == Byte3(w.1)
  {
    var a := 0x2000 + 8 * n;
    BytesOfJoin(m[a], m[a + 1], m[a + 2], m[a + 3]);
    BytesOfJoin(m[a + 4], m[a + 5], m[a + 6], m[a + 7]);
    hide Join, Byte0, Byte1, Byte2, Byte3;
  }

  lemma WordsOfSegments()
    ensures (SegmentLow(0, 0), SegmentHigh(0, 0, 0, 0, 0, 0)) == (0, 0x0040_8000)
    ensures (SegmentLow(0, 0xF_FFFF), SegmentHigh(0, 0xF_FFFF, 1, 1, 0x0A, 0)) == (0x0000_FFFF, 0x00CF_9A00)
    ensures (SegmentLow(0, 0xF_FFFF), SegmentHigh(0, 0xF_FFFF, 1, 1, 0x02, 0)) == (0x0000_FFFF, 0x00CF_9200)
  {}

  ghost predicate Zero(m: seq<byte>, lo: nat, hi: nat)
    requires hi <= |m|
  {
    forall k :: lo <= k < hi ==> m[k] == 0
  }

  lemma ZeroLoads(m: seq<byte>, a: nat)
    requires a + 4 <= |m| && Zero(m, a, a + 4)
    ensures Load32(m, a) == 0
  {}

  /** `rep stosl` with EAX = 0. */
  method RepStosl(mem: array<byte>, edi: nat, ecx: nat)
    requires edi + 4 * ecx <= mem.Length
    modifies mem
    ensures Zero(mem[..], edi, edi + 4 * ecx)
    ensures SameOutside(old(mem[..]), mem[..], edi, edi + 4 * ecx)
  {
    for i := 0 to ecx
      invariant Zero(mem[..], edi, edi + 4 * i)
      invariant SameOutside(old(mem[..]), mem[..], edi, edi + 4 * i)
    {
      var a := edi + 4 * i;
      mem[a], mem[a + 1], mem[a + 2], mem[a + 3] := 0, 0, 0, 0;
    }
  }

  /** `clear_section`: 0..0x40000 and 0x48000..0x90000. */
  method ClearSection(mem: array<byte>)
    requires mem.Length == MEMORY_SIZE
    modifies mem
    ensures Zero(mem[..], 0, 0x4_0000) && Zero(mem[..], 0x4_8000, 0x9_0000)
    ensures KeptByBoot(old(mem[..]), mem[..])
  {
    RepStosl(mem, 0, 0x1_0000);
    RepStosl(mem, 0x4_8000, 0x1_2000);
  }

  /** What boot leaves alone: the boot loader's notes and everything from 0x90000 up. */
  ghost predicate KeptByBoot(m: seq<byte>, n: seq<byte>)
  {
    |m| == |n| == MEMORY_SIZE && forall k :: (0x4_0000 <= k < 0x4_8000 || 0x9_0000 <= k < MEMORY_SIZE) ==> n[k] == m[k]
  }

  /** `idt_init`: 256 default gates, then seven of them again. */
  method IdtInit(mem: array<byte>, h: Handlers)
    requires mem.Length == MEMORY_SIZE
    modifies mem
    ensures IdtReady(mem[..], h)
    ensures SameOutside(old(mem[..]), mem[..], IDT_BASE, IDT_BASE + 0x800)
  {
    hide GateWords;
    DefaultGates(mem, h.default);
    SetGate(mem, 0x00, h.de, 0);
    SetGate(mem, 0x0C, h.ss, 0);
    SetGate(mem, 0x0D, h.gp, 0);
    SetGate(mem, 0x21, h.ps2, 3);
    SetGate(mem, 0x40, h.server, 3);
    SetGate(mem, 0x41, h.video, 3);
    SetGate(mem, 0x42, h.device, 3);
  }

  method DefaultGates(mem: array<byte>, handler: bv32)
    requires mem.Length == MEMORY_SIZE
    modifies mem
    ensures forall n :: 0 <= n < 256 ==> Vector(mem[..], n, handler, false)
    ensures SameOutside(old(mem[..]), mem[..], IDT_BASE, IDT_BASE + 0x800)
  {
    hide GateWords;
    for i := 0 to 256
      invariant forall n :: 0 <= n < i ==> Vector(mem[..], n, handler, false)
      invariant SameOutside(old(mem[..]), mem[..], IDT_BASE, IDT_BASE + 0x800)
    {
      SetGate(mem, i, handler, 0);
    }
  }

  /** `set_system_int` (dpl 0) and `set_user_int` (dpl 3): one gate, the others as before. */
  method SetGate(mem: array<byte>, num: uint32, handler: bv32, dpl: byte)
    requires mem.Length == MEMORY_SIZE && num < 256 && (dpl == 0 || dpl == 3)
    modifies mem
    ensures Vector(mem[..], num, handler, dpl == 3)
    ensures forall n, w, user :: 0 <= n < 256 && n != num && Vector(old(mem[..]), n, w, user) ==> Vector(mem[..], n, w, user)
    ensures SameOutside(old(mem[..]), mem[..], IDT_BASE, IDT_BASE + 0x800)
  {
    hide DecodeGate, Join, GateLow, GateHigh;
    ghost var was := mem[..];
    SetId(mem, num, 0x08, handler, dpl, 0x0E);
    LowWord(handler);
    SystemHighWord(handler);
    UserHighWord(handler);
    OtherGatesKept(was, mem[..], num);
  }

  lemma OtherGatesKept(m: seq<byte>, n: seq<byte>, num: nat)
    requires |m| == MEMORY_SIZE && num < 256 && SameOutside(m, n, IDT_BASE + 8 * num, IDT_BASE + 8 * num + 8)
    ensures forall k :: 0 <= k < 256 && k != num ==> GateWords(n, k) == GateWords(m, k)
  {
    hide Join;
  }

  method DescriptorInit(mem: array<byte>, h: Handlers)
    requires mem.Length == MEMORY_SIZE
    modifies mem
    ensures GdtReady(mem[..]) && IdtReady(mem[..], h)
    ensures SameOutside(old(mem[..]), mem[..], GDT_BASE, IDT_BASE + 0x800)
  {
    hide DecodeSegment, Join, IdtReady, SegmentLow, SegmentHigh;
    WordsOfSegments();
    SetGd(mem, 0, 0, 0, 0, 0, 0x0, 0);
    SetGd(mem, 1, 0, 0xF_FFFF, 1, 1, 0x0A, 0);
    SetGd(mem, 2, 0, 0xF_FFFF, 1, 1, 0x02, 0);
    SetGd(mem, 3, 0, 0, 0, 0, 0x0, 0);
    IdtInit(mem, h);
  }

  lemma KernelPageWord(k: bv32)
    requires k < 1024
    ensures PageWord(k * 0x1000, 0, 1, 1) == (k << 12) | 3
  {}

  lemma DirectoryWords()
    ensures PageWord(0x1000, 0, 1, 1) == 0x1003 && PageWord(0x4_8000, 0, 1, 1) == 0x4_8003
  {}

  /** Stores in [lo, hi) leave the entries of any table outside it alone. */
  lemma EntriesKept(m: seq<byte>, n: seq<byte>, lo: nat, hi: nat)
    requires SameOutside(m, n, lo, hi)
    ensures forall t: nat, k: nat :: t + 4 * k + 4 <= |m| && (t + 4 * k + 4 <= lo || hi <= t + 4 * k)
              ==> Entry(n, t, k) == Entry(m, t, k)
  {
    hide Join;
  }

  /** `paging_init` on cleared memory: the directory, then the kernel's table. */
  method PagingInit(mem: array<byte>)
    requires mem.Length == MEMORY_SIZE
    requires Zero(mem[..], 0, 0x2000) && Zero(mem[..], TEMP_PT_BASE, TEMP_PT_BASE + 0x1000)
    modifies mem
    ensures PagingTables(mem[..])
    ensures SameOutside(old(mem[..]), mem[..], 0, 0x2000)
  {
    hide Entry, Index;
    ghost var was := mem[..];
    UntouchedEntries(was);
    FillDirectory(mem);
    ghost var directory := mem[..];
    FillKernelTable(mem);
    EntriesKept(was, directory, 0, 4 * 1023);
    EntriesKept(directory, mem[..], KERNEL_PT, KERNEL_PT + 0x1000);
  }

  method FillDirectory(mem: array<byte>)
    requires mem.Length == MEMORY_SIZE
    modifies mem
    ensures Entry(mem[..], KERNEL_PD, 0) == 0x1003
    ensures forall n :: 1 <= n < 1023 ==> Entry(mem[..], KERNEL_PD, n) == 0x4_8003
    ensures SameOutside(old(mem[..]), mem[..], 0, 4 * 1023)
  {
    hide PageWord, Entry;
    DirectoryWords();
    PageEntrySet(mem, 0, KERNEL_PD, 0x1000, 0, 1, 1);
    for i := 1 to 1023
      invariant Entry(mem[..], KERNEL_PD, 0) == 0x1003
      invariant forall n :: 1 <= n < i ==> Entry(mem[..], KERNEL_PD, n) == 0x4_8003
      invariant SameOutside(old(mem[..]), mem[..], 0, 4 * i)
    {
      ghost var before := mem[..];
      PageEntrySet(mem, i, KERNEL_PD, 0x4_8000, 0, 1, 1);
      EntriesKept(before, mem[..], 4 * i, 4 * i + 4);
    }
  }

  method FillKernelTable(mem: array<byte>)
    requires mem.Length == MEMORY_SIZE
    modifies mem
    ensures forall k: bv32 :: k < 1024 ==> Entry(mem[..], KERNEL_PT, Index(k)) == (k << 12) | 3
    ensures SameOutside(old(mem[..]), mem[..], KERNEL_PT, KERNEL_PT + 0x1000)
  {
    hide Entry, Index;
    var i: bv32 := 0;
    while i < 1024
      invariant i <= 1024
      invariant forall k: bv32 :: k < i ==> Entry(mem[..], KERNEL_PT, Index(k)) == (k << 12) | 3
      invariant SameOutside(old(mem[..]), mem[..], KERNEL_PT, KERNEL_PT + 0x1000)
      decreases 1024 - i
    {
      SetKernelEntry(mem, i);
      i := i + 1;
    }
  }

  lemma UntouchedEntries(m: seq<byte>)
    requires |m| == MEMORY_SIZE
    requires Zero(m, 0, 0x2000) && Zero(m, TEMP_PT_BASE, TEMP_PT_BASE + 0x1000)
    ensures Entry(m, KERNEL_PD, 1023) == 0
    ensures forall n :: 0 <= n < 1024 ==> Entry(m, TEMP_PT_BASE, n) == 0
  {
    hide Join;
    ZeroLoads(m, 4 * 1023);
    forall n | 0 <= n < 1024
      ensures Entry(m, TEMP_PT_BASE, n) == 0
    {
      ZeroLoads(m, TEMP_PT_BASE + 4 * n);
    }
  }

  /** One turn of the second loop of `paging_init`. */
  method SetKernelEntry(mem: array<byte>, i: bv32)
    requires mem.Length == MEMORY_SIZE && i < 1024
    requires forall k: bv32 :: k < i ==> Entry(mem[..], KERNEL_PT, Index(k)) == (k << 12) | 3
    modifies mem
    ensures forall k: bv32 :: k < i + 1 ==> Entry(mem[..], KERNEL_PT, Index(k)) == (k << 12) | 3
    ensures SameOutside(old(mem[..]), mem[..], KERNEL_PT, KERNEL_PT + 0x1000)
  {
    hide PageWord, Entry, Index;
    ghost var before := mem[..];
    KernelPageWord(i);
    PageEntrySet(mem, Index(i), KERNEL_PT, i * 0x1000, 0, 1, 1);
    EntriesKept(before, mem[..], KERNEL_PT + 4 * Index(i), KERNEL_PT + 4 * Index(i) + 4);
    forall k: bv32 | k < i + 1
      ensures Entry(mem[..], KERNEL_PT, Index(k)) == (k << 12) | 3
    {
      if k != i {
        assert k < i;
        if Index(k) == Index(i) {
          IndexIsInjective(k, i);
        }
      }
    }
  }

  lemma ZeroBitsAreFree(m: seq<byte>, base: nat)
    requires base + MAP_BYTES <= |m| && Zero(m, base, base + MAP_BYTES)
    ensures forall i :: 0 <= i < MAP_BITS ==> !Used(m, base, i)
  {
    hide BitOfByte;
    forall i | 0 <= i < MAP_BITS
      ensures !Used(m, base, i)
    {
      ZeroByteHasNoBits(i % 8);
    }
  }

  lemma ZeroByteHasNoBits(k: nat)
    requires k < 8
    ensures !BitOfByte(0, k)
  {
    if k == 0 {} else if k == 1 {} else if k == 2 {} else if k == 3 {}
    else if k == 4 {} else if k == 5 {} else if k == 6 {} else {}
  }

  /** `mem_map_init` on a cleared map: exactly the pages of the low 4 MB are used. */
  method MemMapInit(mem: array<byte>)
    requires mem.Length == MEMORY_SIZE
    requires Zero(mem[..], MEM_MAP_BASE, MEM_MAP_BASE + MAP_BYTES)
    modifies mem
    ensures Free(mem[..], MEM_MAP_BASE) == TaskRuns.Interval(1024, MAP_BITS)
    ensures SameOutside(old(mem[..]), mem[..], MEM_MAP_BASE, MEM_MAP_BASE + MAP_BYTES)
  {
    hide Used, Flipped;
    ZeroBitsAreFree(mem[..], MEM_MAP_BASE);
    for i := 0 to 1024
      invariant forall k :: 0 <= k < MAP_BITS ==> Used(mem[..], MEM_MAP_BASE, k) == (k < i)
      invariant SameOutside(old(mem[..]), mem[..], MEM_MAP_BASE, MEM_MAP_BASE + MAP_BYTES)
    {
      FlippedFlipsOneBit(mem[..], MEM_MAP_BASE, i);
      MapWrite(mem, MEM_MAP_BASE, i);
    }
  }

  /** Everything boot builds, on one memory. */
  ghost predicate Booted(m: seq<byte>, h: Handlers)
  {
    && |m| == MEMORY_SIZE
    && GdtReady(m) && IdtReady(m, h) && PagingTables(m)
    && Tasks.PoolsOf(m) == TaskRuns.BootPools()
  }

  /** From any memory contents, the boot sequence up to `mem_map_init` leaves all the tables
      and both bitmaps in place together. */
  method BootSequence(mem: array<byte>, h: Handlers)
    requires mem.Length == MEMORY_SIZE
    modifies mem
    ensures Booted(mem[..], h)
    ensures KeptByBoot(old(mem[..]), mem[..])
    ensures forall linear: bv32 :: PageWalk(mem[..], KERNEL_PD, linear)
              == if linear < 0x40_0000 then Translated(linear, false, true) else Fault
  {
    hide GateWords, SegmentWords, Entry, Index, PageWalk, Used;
    ClearSection(mem);
    ghost var cleared := mem[..];
    DescriptorInit(mem, h);
    ghost var described := mem[..];
    PagingInit(mem);
    ghost var paged := mem[..];
    MemMapInit(mem);
    DescriptorsKept(described, paged, h, 0, 0x2000);
    DescriptorsKept(paged, mem[..], h, MEM_MAP_BASE, MEM_MAP_BASE + MAP_BYTES);
    TablesKept(paged, mem[..]);
    ZeroBitsAreFree(mem[..], TASK_MAP_BASE);
    assert Free(mem[..], TASK_MAP_BASE) == TaskRuns.Interval(0, MAP_BITS);
    forall linear: bv32
      ensures PageWalk(mem[..], KERNEL_PD, linear)
           == if linear < 0x40_0000 then Translated(linear, false, true) else Fault
    {
      WalkIsIdentityBelow4MB(mem[..], linear);
    }
  }

  lemma GatesKept(m: seq<byte>, n: seq<byte>, lo: nat, hi: nat)
    requires |m| == MEMORY_SIZE && SameOutside(m, n, lo, hi) && (hi <= GDT_BASE || IDT_BASE + 0x800 <= lo)
    ensures forall k :: 0 <= k < 256 ==> GateWords(n, k) == GateWords(m, k)
  {
    hide Join;
  }

  /** A builder that stays clear of the descriptor tables keeps them. */
  lemma DescriptorsKept(m: seq<byte>, n: seq<byte>, h: Handlers, lo: nat, hi: nat)
    requires |m| == MEMORY_SIZE && SameOutside(m, n, lo, hi)
    requires hi <= GDT_BASE || IDT_BASE + 0x800 <= lo
    requires GdtReady(m) && IdtReady(m, h)
    ensures GdtReady(n) && IdtReady(n, h)
  {
    hide Join;
    assert forall k :: 0 <= k < 4 ==> SegmentWords(n, k) == SegmentWords(m, k);
    hide GateWords;
    GatesKept(m, n, lo, hi);
    assert forall k, w, user :: 0 <= k < 256 && Vector(m, k, w, user) ==> Vector(n, k, w, user);
  }

  /** The page bitmap lies clear of the paging tables. */
  lemma TablesKept(m: seq<byte>, n: seq<byte>)
    requires PagingTables(m) && SameOutside(m, n, MEM_MAP_BASE, MEM_MAP_BASE + MAP_BYTES)
    ensures PagingTables(n)
  {
    hide Entry, Index;
    EntriesKept(m, n, MEM_MAP_BASE, MEM_MAP_BASE + MAP_BYTES);
  }
}
