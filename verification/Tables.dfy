/** The processor's tables: how the kernel writes an entry, and how the processor reads one
    back (Intel SDM Volume 3A, sections 3.4.5, 4.3 and 6.11). */
module Tables {
  import opened CTypes
  import opened Memory

  const KERNEL_PD: nat := 0x0000
  const KERNEL_PT: nat := 0x1000
  const GDT_BASE: nat := 0x2000
  const GDT_LIMIT: nat := 0x1FFF
  const IDT_BASE: nat := 0x4000
  const IDT_LIMIT: nat := 0x07FF
  const TEMP_PT_BASE: nat := 0x4_8000

  /** Entry `n` of a table of 32-bit words. */
  function Entry(m: seq<byte>, table: nat, n: nat): bv32
    requires table + 4 * n + 4 <= |m|
  {
    Load32(m, table + 4 * n)
  }

  // ---------- paging ----------

  function PageWord(address: bv32, us: byte, rw: byte, p: byte): bv32
  {
    (address & 0xFFFF_F000) | ((us & 1) as bv32 << 2) | ((rw & 1) as bv32 << 1) | (p & 1) as bv32
  }

  /** Which bits of an entry hold what: present, writable, user, and the page's address. */
  lemma PageWordLayout(address: bv32, us: byte, rw: byte, p: byte)
    ensures var w := PageWord(address, us, rw, p);
            && w >> 12 == address >> 12 && w & 1 == (p & 1) as bv32
            && (w >> 1) & 1 == (rw & 1) as bv32 && (w >> 2) & 1 == (us & 1) as bv32 && (w >> 3) & 0x1FF == 0
  {}

  /** `PDE_SET` and `PTE_SET`, which differ only in the names of their parameters. An entry
      beyond `mem` lies outside the modelled memory. */
  method PageEntrySet(mem: array<byte>, num: uint32, table: nat, address: bv32, us: byte, rw: byte, p: byte)
    modifies mem
    ensures num > 1023 || table + 4 * num + 4 > mem.Length ==> mem[..] == old(mem[..])
    ensures num <= 1023 && table + 4 * num + 4 <= mem.Length ==>
      Entry(mem[..], table, num) == PageWord(address, us, rw, p)
    ensures SameOutside(old(mem[..]), mem[..], table + 4 * num, table + 4 * num + 4)
  {
    hide PageWord, Join;
    if num > 1023 {
      return;
    }
    if table + num * 4 + 4 <= mem.Length {
      Store32(mem, table + num * 4, PageWord(address, us, rw, p));
    }
  }

  datatype Walk = Translated(physical: bv32, user: bool, writable: bool) | Fault | OutsideModel

  /** A 10-bit field used as an index. */
  function Index(k: bv32): (n: nat)
    requires k < 1024
    ensures n < 1024
  {
    k as nat
  }

  lemma IndexIsInjective(j: bv32, k: bv32)
    requires j < 1024 && k < 1024 && Index(j) == Index(k)
    ensures j == k
  {
    assert (j as nat) as bv32 == j && (k as nat) as bv32 == k;
  }

  lemma OnlyZeroHasIndexZero(k: bv32)
    requires k < 1024
    ensures Index(k) == 0 <==> k == 0
  {
    if Index(k) == 0 {
      IndexIsInjective(k, 0);
    }
  }

  /** The address field of an entry. */
  function AddressOf(entry: bv32): nat
  {
    (entry & 0xFFFF_F000) as nat
  }

  /** The end of the walk: rights are those of both levels. */
  function Translation(pde: bv32, pte: bv32, linear: bv32): Walk
  {
    if pte & 1 == 0 then Fault
    else Translated((pte & 0xFFFF_F000) | (linear & 0xFFF), pde & pte & 4 != 0, pde & pte & 2 != 0)
  }

  /** The 32-bit page walk (4 KB pages) of a linear address. */
  function PageWalk(m: seq<byte>, cr3: nat, linear: bv32): Walk
    requires cr3 + 0x1000 <= |m|
  {
    var pde := Entry(m, cr3, Index(linear >> 22));
    if pde & 1 == 0 then Fault
    else if AddressOf(pde) + 0x1000 > |m| then OutsideModel
    else Translation(pde, Entry(m, AddressOf(pde), Index((linear >> 12) & 0x3FF)), linear)
  }

  /** Directory entries 1..1022 name the empty temporary table; entry 1023 is absent. */
  ghost predicate EmptyFrom4MB(m: seq<byte>)
  {
    && |m| == MEMORY_SIZE
    && (forall n :: 1 <= n < 1023 ==> Entry(m, KERNEL_PD, n) == 0x4_8003)
    && Entry(m, KERNEL_PD, 1023) == 0
    && (forall n :: 0 <= n < 1024 ==> Entry(m, TEMP_PT_BASE, n) == 0)
  }

  /** The tables `paging_init` leaves: besides, entry 0 names the kernel table, whose entries
      map each page to itself. */
  ghost predicate PagingTables(m: seq<byte>)
  {
    && EmptyFrom4MB(m)
    && Entry(m, KERNEL_PD, 0) == 0x1003
    && (forall k: bv32 :: k < 1024 ==> Entry(m, KERNEL_PT, Index(k)) == (k << 12) | 3)
  }

  lemma SplitLinear(linear: bv32)
    ensures linear >> 22 < 1024 && (linear >> 12) & 0x3FF < 1024
    ensures linear >> 22 == 0 <==> linear < 0x40_0000
  {}

  lemma IdentityTranslation(linear: bv32)
    requires linear < 0x40_0000
    ensures Translation(0x1003, (((linear >> 12) & 0x3FF) << 12) | 3, linear) == Translated(linear, false, true)
  {}

  lemma AbsentTranslation(pde: bv32, linear: bv32)
    ensures Translation(pde, 0, linear) == Fault
  {}

  lemma TablesNamed()
    ensures AddressOf(0x1003) == KERNEL_PT && AddressOf(0x4_8003) == TEMP_PT_BASE
  {}

  /** Below 4 MB the walk is the identity, supervisor-only and writable. */
  lemma WalkIsIdentity(m: seq<byte>, linear: bv32)
    requires PagingTables(m) && linear < 0x40_0000
    ensures PageWalk(m, KERNEL_PD, linear) == Translated(linear, false, true)
  {
    hide Entry, Index, AddressOf, Translation;
    SplitLinear(linear);
    TablesNamed();
    OnlyZeroHasIndexZero(linear >> 22);
    IdentityTranslation(linear);
  }

  /** From 4 MB up it faults: through the empty temporary table, or in directory entry 1023. */
  lemma WalkFaults(m: seq<byte>, linear: bv32)
    requires EmptyFrom4MB(m) && linear >= 0x40_0000
    ensures PageWalk(m, KERNEL_PD, linear) == Fault
  {
    hide Entry, Index, AddressOf, Translation;
    SplitLinear(linear);
    TablesNamed();
    OnlyZeroHasIndexZero(linear >> 22);
    AbsentTranslation(0x4_8003, linear);
  }

  /** The walk is defined on exactly the linear addresses below 4 MB. */
  lemma WalkIsIdentityBelow4MB(m: seq<byte>, linear: bv32)
    requires PagingTables(m)
    ensures PageWalk(m, KERNEL_PD, linear)
         == if linear < 0x40_0000 then Translated(linear, false, true) else Fault
  {
    hide PageWalk, EmptyFrom4MB, Entry;
    if linear < 0x40_0000 {
      WalkIsIdentity(m, linear);
    } else {
      WalkFaults(m, linear);
    }
  }
}
