/** `creat_task` and the two bitmaps it draws on: what one call does to the free task
    numbers and pages, and what any run of calls can do. */
module Tasks {
  import opened CTypes
  import opened Memory
  import opened Bitmap
  import opened Tables
  import opened Descriptors
  import opened TaskStores

  datatype Pools = Pools(tasks: set<nat>, pages: set<nat>)

  /** What a call comes to. The two failures are the two messages the source prints. */
  datatype Outcome = Created(task: nat, pages: seq<nat>) | NoTaskNumber | NoPage

  ghost function Greatest(s: set<nat>): (g: nat)
    requires s != {}
    ensures g in s && forall i :: i in s ==> i <= g
  {
    var x :| x in s;
    if s == {x} then x
    else
      var g := Greatest(s - {x});
      assert forall i :: i in s ==> i == x || i in s - {x};
      if x <= g then g else x
  }

  /** The `n` greatest elements of `free`, greatest first; all of them if there are fewer. */
  ghost function Taken(free: set<nat>, n: nat): (r: seq<nat>)
    ensures |r| <= n
    decreases n
  {
    if n == 0 || free == {} then [] else [Greatest(free)] + Taken(free - {Greatest(free)}, n - 1)
  }

  ghost function Elements(s: seq<nat>): set<nat>
  {
    set x | x in s
  }

  ghost predicate Descending(s: seq<nat>)
  {
    forall i, j :: 0 <= i < j < |s| ==> s[i] > s[j]
  }

  lemma {:induction false} TakenLength(free: set<nat>, n: nat)
    ensures |Taken(free, n)| == if n <= |free| then n else |free|
    decreases n
  {
    if n != 0 && free != {} {
      TakenLength(free - {Greatest(free)}, n - 1);
    }
  }

  lemma {:induction false} TakenDescends(free: set<nat>, n: nat)
    ensures var r := Taken(free, n);
            && Descending(r) && Elements(r) <= free
            && forall x, y :: x in r && y in free - Elements(r) ==> y < x
    decreases n
  {
    if n != 0 && free != {} {
      hide Descending;
      var g := Greatest(free);
      var rest := Taken(free - {g}, n - 1);
      TakenDescends(free - {g}, n - 1);
      ConsDescending(g, rest, free);
      forall x, y | x in [g] + rest && y in free - Elements([g] + rest)
        ensures y < x
      {
        assert y in free - {g} - Elements(rest);
        assert x == g || x in rest;
      }
    }
  }

  lemma {:induction false} DistinctElements(s: seq<nat>)
    requires Descending(s)
    ensures |Elements(s)| == |s|
  {
    if s != [] {
      var rest := s[1..];
      DistinctElements(rest);
      assert s == [s[0]] + rest;
      assert s[0] !in Elements(rest);
      assert Elements(s) == {s[0]} + Elements(rest);
    }
  }

  /** Successive allocations return distinct, strictly decreasing, previously free indexes,
      the greatest there are, and lower the free count by exactly their number. */
  lemma TakenAreTheGreatest(free: set<nat>, n: nat)
    ensures var r := Taken(free, n);
            && |r| == (if n <= |free| then n else |free|)
            && Descending(r) && Elements(r) <= free
            && (forall x, y :: x in r && y in free - Elements(r) ==> y < x)
            && |free - Elements(r)| == |free| - |r|
  {
    TakenLength(free, n);
    TakenDescends(free, n);
    DistinctElements(Taken(free, n));
  }

  lemma ConsDescending(g: nat, rest: seq<nat>, free: set<nat>)
    requires g in free && (forall i :: i in free ==> i <= g)
    requires Descending(rest) && Elements(rest) <= free - {g}
    ensures Descending([g] + rest) && Elements([g] + rest) == {g} + Elements(rest)
  {
    forall i, j | 0 <= i < j < |[g] + rest|
      ensures ([g] + rest)[i] > ([g] + rest)[j]
    {
      assert rest[j - 1] in Elements(rest);
    }
    forall x
      ensures x in Elements([g] + rest) <==> x in {g} + Elements(rest)
    {
      assert x in [g] + rest <==> x == g || x in rest;
    }
  }

  /** One call of `creat_task`: the greatest free task number and the three greatest free
      pages. Short of pages, the task number goes back but the pages found do not. */
  ghost function AfterCall(p: Pools): Pools
  {
    if p.tasks == {} then p
    else
      var taken := Taken(p.pages, 3);
      Pools(if |taken| == 3 then p.tasks - {Greatest(p.tasks)} else p.tasks, p.pages - Elements(taken))
  }

  ghost function CallOutcome(p: Pools): Outcome
  {
    if p.tasks == {} then NoTaskNumber
    else if |Taken(p.pages, 3)| == 3 then Created(Greatest(p.tasks), Taken(p.pages, 3))
    else NoPage
  }

  ghost function PoolsOf(m: seq<byte>): Pools
    requires |m| == MEMORY_SIZE
  {
    Pools(Free(m, TASK_MAP_BASE), Free(m, MEM_MAP_BASE))
  }

  /** Both bitmaps of `m` and `n` agree. */
  ghost predicate MapsSame(m: seq<byte>, n: seq<byte>)
  {
    |m| == |n| == MEMORY_SIZE && forall k: nat :: k < MEMORY_SIZE && InMaps(k) ==> n[k] == m[k]
  }

  lemma SamePools(m: seq<byte>, n: seq<byte>)
    requires MapsSame(m, n)
    ensures PoolsOf(n) == PoolsOf(m)
  {
    hide BitOfByte;
    forall i: nat | i < MAP_BITS
      ensures Used(n, TASK_MAP_BASE, i) == Used(m, TASK_MAP_BASE, i)
      ensures Used(n, MEM_MAP_BASE, i) == Used(m, MEM_MAP_BASE, i)
    {
      assert InMaps(TASK_MAP_BASE + i / 8) && InMaps(MEM_MAP_BASE + i / 8);
    }
  }

  /** Taking an index back is exact, and no write touches the other bitmap. */
  lemma WritesAreIndependent(m: seq<byte>, base: nat, other: nat, i: nat)
    requires |m| == MEMORY_SIZE && i < MAP_BITS
    requires (base == MEM_MAP_BASE && other == TASK_MAP_BASE) || (base == TASK_MAP_BASE && other == MEM_MAP_BASE)
    ensures var n := Flipped(m, base, i);
            && Free(n, other) == Free(m, other) && SameOutside(m, n, base, base + MAP_BYTES)
            && Free(n, base) == (if i in Free(m, base) then Free(m, base) - {i} else Free(m, base) + {i})
  {
    hide BitOfByte, Flip;
    FlippedFlipsOneBit(m, base, i);
  }

  lemma GreatestIsUnique(s: set<nat>, r: nat)
    requires r in s && forall i :: i in s ==> i <= r
    ensures s != {} && Greatest(s) == r
  {}

  // ---------- the stores ----------

  /** Fields of the task record: offset, width and value. First the header, then the state
      segment; reserved bytes are not stored. */
  function HeaderFields(priority: byte, base: bv32): (r: seq<(nat, nat, bv32)>)
    ensures Layout(r, 0, 7)
  {
    [(0, 1, 0), (2, 1, priority as bv32), (1, 1, priority as bv32), (3, 4, base)]
  }

  function StackFields(cr3: bv32): (r: seq<(nat, nat, bv32)>)
    ensures Layout(r, 7, 47)
  {
    [(7, 2, 0), (11, 4, 0x3F_FFF0), (15, 2, 0x10), (19, 4, 0), (23, 2, 0), (27, 4, 0), (31, 2, 0),
     (35, 4, cr3), (39, 4, 0), (43, 4, 0x202)]
  }

  function RegisterFields(ldt: bv32): (r: seq<(nat, nat, bv32)>)
    ensures Layout(r, 47, RECORD_SIZE)
  {
    [(47, 4, 0), (51, 4, 0), (55, 4, 0), (59, 4, 0), (63, 4, 0xFFFF_FFF0), (67, 4, 0), (71, 4, 0), (75, 4, 0),
     (79, 2, 0x17), (83, 2, 0x0F), (87, 2, 0x17), (91, 2, 0x17), (95, 2, 0), (99, 2, 0),
     (103, 2, ldt), (109, 2, 0x68)]
  }

  /** Byte `j` of a little-endian word. */
  function WordByte(w: bv32, j: nat): byte
    requires j < 4
  {
    if j == 0 then Byte0(w) else if j == 1 then Byte1(w) else if j == 2 then Byte2(w) else Byte3(w)
  }

  /** A store of `width` bytes; what lies beyond `mem` is outside the modelled memory. */
  method StoreField(mem: array<byte>, a: nat, width: nat, value: bv32)
    requires width <= 4
    modifies mem
    ensures SameOutside(old(mem[..]), mem[..], a, a + width)
    ensures forall j: nat :: j < width && a + j < mem.Length ==> mem[a + j] == WordByte(value, j)
  {
    hide WordByte;
    for i := 0 to width
      invariant SameOutside(old(mem[..]), mem[..], a, a + width)
      invariant forall j: nat :: j < i && a + j < mem.Length ==> mem[a + j] == WordByte(value, j)
    {
      if a + i < mem.Length {
        mem[a + i] := WordByte(value, i);
      }
    }
  }

  /** A field of a record at `base`, as far as it lies in memory. */
  ghost predicate FieldHolds(m: seq<byte>, base: nat, field: (nat, nat, bv32))
  {
    field.1 <= 4 && forall j: nat :: j < field.1 && base + field.0 + j < |m| ==> m[base + field.0 + j] == WordByte(field.2, j)
  }

  /** Fields of at most four bytes that do not overlap and lie in [lo, hi). */
  predicate Layout(fields: seq<(nat, nat, bv32)>, lo: nat, hi: nat)
  {
    && (forall i :: 0 <= i < |fields| ==> fields[i].1 <= 4 && lo <= fields[i].0 && fields[i].0 + fields[i].1 <= hi)
    && forall i, j :: 0 <= i < j < |fields| ==> fields[i].0 + fields[i].1 <= fields[j].0 || fields[j].0 + fields[j].1 <= fields[i].0
  }

  method StoreRecord(mem: array<byte>, base: nat, fields: seq<(nat, nat, bv32)>, ghost lo: nat, ghost hi: nat)
    requires Layout(fields, lo, hi) && lo <= hi
    modifies mem
    ensures SameOutside(old(mem[..]), mem[..], base + lo, base + hi)
    ensures forall i :: 0 <= i < |fields| ==> FieldHolds(mem[..], base, fields[i])
  {
    hide WordByte;
    for i := 0 to |fields|
      invariant SameOutside(old(mem[..]), mem[..], base + lo, base + hi)
      invariant forall j :: 0 <= j < i ==> FieldHolds(mem[..], base, fields[j])
    {
      ghost var was := mem[..];
      StoreField(mem, base + fields[i].0, fields[i].1, fields[i].2);
      assert FieldHolds(mem[..], base, fields[i]);
      forall j | 0 <= j < i
        ensures FieldHolds(mem[..], base, fields[j])
      {
        FieldKept(was, mem[..], base, fields[j], fields[i]);
      }
    }
  }

  lemma FieldKept(m: seq<byte>, n: seq<byte>, base: nat, field: (nat, nat, bv32), stored: (nat, nat, bv32))
    requires FieldHolds(m, base, field) && SameOutside(m, n, base + stored.0, base + stored.0 + stored.1)
    requires field.0 + field.1 <= stored.0 || stored.0 + stored.1 <= field.0
    ensures FieldHolds(n, base, field)
  {
    hide WordByte;
  }

  /** The directory entry stored through the second page is not overwritten by a later store
      of the same call. */
  predicate PdeStands(task: nat, second: nat, third: nat)
  {
    && InMaps(PdeAddress(second, third)) && PteNumber(third) > 1023
    && (RecordBase(task) + RECORD_SIZE <= PdeAddress(second, third) || PdeAddress(second, third) + 4 <= RecordBase(task))
  }

  method TempEntry(mem: array<byte>, num: uint32, address: bv32)
    requires mem.Length == MEMORY_SIZE
    modifies mem
    ensures SameOutside(old(mem[..]), mem[..], TEMP_PT_BASE, TEMP_PT_BASE + 0x1000)
  {
    hide PageWord, Entry;
    PageEntrySet(mem, num, TEMP_PT_BASE, address, 0, 1, 1);
  }

  lemma FieldLoads(m: seq<byte>, base: nat, offset: nat, w: bv32)
    requires FieldHolds(m, base, (offset, 4, w)) && base + offset + 4 <= |m|
    ensures Load32(m, base + offset) == w
  {
    JoinOfBytes(w);
    hide Join, Byte0, Byte1, Byte2, Byte3;
    var f := (offset, 4, w);
    assert m[base + f.0 + 0] == WordByte(w, 0) && m[base + f.0 + 1] == WordByte(w, 1);
    assert m[base + f.0 + 2] == WordByte(w, 2) && m[base + f.0 + 3] == WordByte(w, 3);
  }

  lemma FieldBytes(m: seq<byte>, base: nat, offset: nat, width: nat, w: bv32)
    requires FieldHolds(m, base, (offset, width, w)) && 0 < width <= 2 && base + offset + width <= |m|
    ensures m[base + offset] == Byte0(w) && (width == 2 ==> m[base + offset + 1] == Byte1(w))
  {
    hide Byte0, Byte1, Byte2, Byte3;
    var f := (offset, width, w);
    assert m[base + f.0 + 0] == WordByte(w, 0);
    if width == 2 {
      assert m[base + f.0 + 1] == WordByte(w, 1);
    }
  }

  /** The task record where it lies in memory: state, remaining time, priority and base of
      the code; the kernel stack, CR3, EIP and EFLAGS; ESP, the user segments, the selector of
      the local table and the map base. */
  ghost predicate RecordStored(n: seq<byte>, task: nat, pdBase: bv32, code: bv32, priority: byte)
    requires |n| == MEMORY_SIZE && task < MAP_BITS
  {
    var b := 0x5000 + 128 * task;
    b + 111 <= MEMORY_SIZE ==> HeaderStored(n, b, code, priority) && StackStored(n, b, pdBase) && RegistersStored(n, b, task)
  }

  ghost predicate HeaderStored(n: seq<byte>, b: nat, code: bv32, priority: byte)
    requires b + 111 <= |n|
  {
    n[b] == 0 && n[b + 1] == priority && n[b + 2] == priority && Load32(n, b + 3) == code
  }

  ghost predicate StackStored(n: seq<byte>, b: nat, pdBase: bv32)
    requires b + 111 <= |n|
  {
    && Load32(n, b + 11) == 0x3F_FFF0 && n[b + 15] == 0x10 && n[b + 16] == 0
    && Load32(n, b + 35) == pdBase && Load32(n, b + 39) == 0 && Load32(n, b + 43) == 0x202
  }

  ghost predicate RegistersStored(n: seq<byte>, b: nat, task: nat)
    requires b + 111 <= |n| && task < MAP_BITS
  {
    var ldt := WordOf(8 * (4 + 2 * task) % 0x1_0000);
    && Load32(n, b + 63) == 0xFFFF_FFF0
    && n[b + 79] == 0x17 && n[b + 83] == 0x0F && n[b + 87] == 0x17 && n[b + 91] == 0x17
    && n[b + 103] == Byte0(ldt) && n[b + 104] == Byte1(ldt) && n[b + 109] == 0x68 && n[b + 110] == 0
  }

  /** The descriptors of the local table and of the state segment, where the guard admits them. */
  ghost predicate DescriptorsStored(n: seq<byte>, task: nat)
    requires |n| == MEMORY_SIZE && task < MAP_BITS
  {
    && (4 + 2 * task <= 0x1FFF ==>
          SegmentAt(n, 4 + 2 * task) == Segment(WordOf(0x1_5000 + 32 * task), 0x1F, false, true, true, 0, false, 2))
    && (5 + 2 * task <= 0x1FFF ==>
          SegmentAt(n, 5 + 2 * task) == Segment(WordOf(0x5007 + 128 * task), 0x67, false, true, true, 0, false, 9))
  }

  lemma HeaderRead(n: seq<byte>, b: nat, code: bv32, priority: byte)
    requires var f := HeaderFields(priority, code); forall i :: 0 <= i < |f| ==> FieldHolds(n, b, f[i])
    requires b + 111 <= |n|
    ensures HeaderStored(n, b, code, priority)
  {
    HeaderListed(priority, code);
    hide FieldHolds, Load32, HeaderFields, Byte0, Byte1;
    LowBytesOf(priority);
    FieldBytes(n, b, 0, 1, 0);
    FieldBytes(n, b, 1, 1, priority as bv32);
    FieldBytes(n, b, 2, 1, priority as bv32);
    FieldLoads(n, b, 3, code);
  }

  lemma StackRead(n: seq<byte>, b: nat, pdBase: bv32)
    requires var f := StackFields(pdBase); forall i :: 0 <= i < |f| ==> FieldHolds(n, b, f[i])
    requires b + 111 <= |n|
    ensures StackStored(n, b, pdBase)
  {
    StackListed(pdBase);
    hide FieldHolds, Load32, StackFields, Byte0, Byte1;
    LowBytesOf(0);
    FieldLoads(n, b, 11, 0x3F_FFF0);
    FieldBytes(n, b, 15, 2, 0x10);
    FieldLoads(n, b, 35, pdBase);
    FieldLoads(n, b, 39, 0);
    FieldLoads(n, b, 43, 0x202);
  }

  lemma RegistersRead(n: seq<byte>, b: nat, task: nat)
    requires task < MAP_BITS && b + 111 <= |n|
    requires var f := RegisterFields(WordOf(8 * (4 + 2 * task) % 0x1_0000)); forall i :: 0 <= i < |f| ==> FieldHolds(n, b, f[i])
    ensures RegistersStored(n, b, task)
  {
    var ldt := WordOf(8 * (4 + 2 * task) % 0x1_0000);
    RegistersListed(ldt);
    hide WordOf, FieldHolds, Load32, RegisterFields, Byte0, Byte1;
    LowBytesOf(0);
    FieldLoads(n, b, 63, 0xFFFF_FFF0);
    FieldBytes(n, b, 79, 2, 0x17);
    FieldBytes(n, b, 83, 2, 0x0F);
    FieldBytes(n, b, 87, 2, 0x17);
    FieldBytes(n, b, 91, 2, 0x17);
    FieldBytes(n, b, 103, 2, ldt);
    FieldBytes(n, b, 109, 2, 0x68);
  }

  lemma LowBytesOf(priority: byte)
    ensures Byte0(priority as bv32) == priority && Byte0(0) == 0 && Byte0(0x10) == 0x10 && Byte1(0x10) == 0
    ensures Byte0(0x17) == 0x17 && Byte0(0x0F) == 0x0F && Byte0(0x68) == 0x68 && Byte1(0x68) == 0
  {}

  lemma HeaderListed(priority: byte, code: bv32)
    ensures var f := HeaderFields(priority, code);
            |f| == 4 && f[0] == (0, 1, 0) && f[1] == (2, 1, priority as bv32) && f[2] == (1, 1, priority as bv32) && f[3] == (3, 4, code)
  {}

  lemma StackListed(pdBase: bv32)
    ensures var f := StackFields(pdBase);
            && |f| == 10 && f[1] == (11, 4, 0x3F_FFF0) && f[2] == (15, 2, 0x10)
            && f[7] == (35, 4, pdBase) && f[8] == (39, 4, 0) && f[9] == (43, 4, 0x202)
  {}

  lemma RegistersListed(ldt: bv32)
    ensures var f := RegisterFields(ldt);
            && |f| == 16 && f[4] == (63, 4, 0xFFFF_FFF0)
            && f[8] == (79, 2, 0x17) && f[9] == (83, 2, 0x0F) && f[10] == (87, 2, 0x17) && f[11] == (91, 2, 0x17)
            && f[14] == (103, 2, ldt) && f[15] == (109, 2, 0x68)
  {}

  /** The page-table entries of a call that has its three pages, by table and entry number. */
  method StoreEntriesIn(mem: array<byte>, table: uint32, pde: uint32, pte: uint32, tablePte: uint32,
                        pdBase: bv32, tableBase: bv32, codeBase: bv32)
    requires mem.Length == MEMORY_SIZE && pde <= 1
    modifies mem
    ensures forall k: nat :: k < MEMORY_SIZE ==>
      || Within(k, TEMP_PT_BASE, 0x1000) || Within(k, table + 4 * pde, 4)
      || (pte <= 1023 && Within(k, table + 4 * pte, 4)) || mem[k] == old(mem[k])
    ensures InMaps(table + 4 * pde) && InMaps(table + 4 * pde + 3) && pte > 1023 ==>
      Entry(mem[..], table, pde) == PageWord(pdBase, 1, 0, 1)
  {
    hide PageWord, Join;
    PageEntrySet(mem, pde, table, pdBase, 1, 0, 1);
    ghost var withPde := mem[..];
    TempEntry(mem, tablePte, tableBase);
    PageEntrySet(mem, pte, table, codeBase, 1, 0, 1);
    TempEntry(mem, pte, codeBase);
    assert InMaps(table + 4 * pde) && InMaps(table + 4 * pde + 3) && pte > 1023 ==>
      forall k :: table + 4 * pde <= k < table + 4 * pde + 4 ==> mem[k] == withPde[k];
  }

  method StoreEntries(mem: array<byte>, first: uint32, second: uint32, third: uint32)
    requires mem.Length == MEMORY_SIZE && first < MAP_BITS && second < MAP_BITS && third < MAP_BITS
    modifies mem
    ensures forall k: nat :: k < MEMORY_SIZE && !FixedStore(k) && !EntryStored(second, third, k) ==> mem[k] == old(mem[k])
    ensures InMaps(PdeAddress(second, third)) && PteNumber(third) > 1023 ==>
      Load32(mem[..], PdeAddress(second, third)) == PageWord(WordOf(8 * first), 1, 0, 1)
  {
    hide PageWord, Join, WordOf;
    var pdBase: uint32, codePtBase: uint32, taskCodeBase: uint32 := 8 * first, 8 * second, 8 * third;
    assert InMaps(PdeAddress(second, third)) ==> InMaps(PdeAddress(second, third) + 3);
    StoreEntriesIn(mem, codePtBase, taskCodeBase / 0x40_0000, taskCodeBase % 0x40_0000 / 8, codePtBase % 0x40_0000 / 8,
                   WordOf(pdBase), WordOf(codePtBase), WordOf(taskCodeBase));
  }

  method StoreDescriptors(mem: array<byte>, taskNum: uint32)
    requires mem.Length == MEMORY_SIZE && taskNum < MAP_BITS
    modifies mem
    ensures forall k: nat :: k < MEMORY_SIZE && !(taskNum < 0xFFE && Within(k, 0x2020 + 16 * taskNum, 16)) ==> mem[k] == old(mem[k])
    ensures DescriptorsStored(mem[..], taskNum)
  {
    hide SegmentAt, WordOf;
    SetSystem(mem, 4 + taskNum * 2, WordOf(TASK_LDT_BASE + 32 * taskNum), 0x1F, 0x02);
    ghost var withFirst := mem[..];
    SetSystem(mem, 5 + taskNum * 2, WordOf(TASK_DATA_BASE + 7 + 128 * taskNum), 0x67, 0x09);
    if taskNum < 0xFFE {
      SegmentBeforeKept(withFirst, mem[..], 4 + taskNum * 2);
    }
  }

  /** A system descriptor of privilege level 0, its limit in bytes. */
  method SetSystem(mem: array<byte>, num: uint32, base: bv32, limit: bv32, kind: byte)
    requires mem.Length == MEMORY_SIZE && limit < 0x100 && kind < 0x10
    modifies mem
    ensures num > GDT_LIMIT ==> mem[..] == old(mem[..])
    ensures num <= GDT_LIMIT ==>
      && SegmentAt(mem[..], num) == Segment(base, limit, false, true, true, 0, false, kind as bv32)
      && SameOutside(old(mem[..]), mem[..], GDT_BASE + 8 * num, GDT_BASE + 8 * num + 8)
  {
    hide SegmentAt, SegmentWords, SegmentLow, SegmentHigh;
    SetGd(mem, num, base, limit, 0, 0, kind, 0);
    assert limit & 0xF_FFFF == limit && kind & 0xF == kind;
  }

  lemma SegmentBeforeKept(m: seq<byte>, n: seq<byte>, num: nat)
    requires num < GDT_LIMIT && |m| == MEMORY_SIZE && SameOutside(m, n, GDT_BASE + 8 * num + 8, GDT_BASE + 8 * num + 16)
    ensures SegmentAt(n, num) == SegmentAt(m, num)
  {
    hide Join, DecodeSegment;
  }

  /** The local table: flat user code from `code` on, and flat user data. */
  ghost predicate LocalTableStored(n: seq<byte>, code: bv32)
    requires |n| == MEMORY_SIZE
  {
    && DecodeSegment(Load32(n, 0x1_5008), Load32(n, 0x1_500C)) == Segment(code, 0xF_FFFF, true, true, true, 3, true, 0xA)
    && DecodeSegment(Load32(n, 0x1_5010), Load32(n, 0x1_5014)) == Segment(0, 0xF_FFFF, true, true, true, 3, true, 0x2)
  }

  method StoreLocalTable(mem: array<byte>, code: bv32)
    requires mem.Length == MEMORY_SIZE
    modifies mem
    ensures SameOutside(old(mem[..]), mem[..], 0x1_5008, 0x1_5018)
    ensures LocalTableStored(mem[..], code)
  {
    hide Join, DecodeSegment;
    Store32(mem, TASK_LDT_BASE + 8, ((code & 0xFFFF) << 16) | 0xFFFF);
    Store32(mem, TASK_LDT_BASE + 12, (code & 0xFF00_0000) | 0x00CF_FA00 | ((code & 0x00FF_0000) >> 16));
    Store32(mem, TASK_LDT_BASE + 16, 0xFFFF);
    Store32(mem, TASK_LDT_BASE + 20, 0x00CF_F200);
    UserSegments(code);
  }

  lemma UserSegments(code: bv32)
    ensures DecodeSegment(((code & 0xFFFF) << 16) | 0xFFFF, (code & 0xFF00_0000) | 0x00CF_FA00 | ((code & 0x00FF_0000) >> 16))
         == Segment(code, 0xF_FFFF, true, true, true, 3, true, 0xA)
    ensures DecodeSegment(0xFFFF, 0x00CF_F200) == Segment(0, 0xF_FFFF, true, true, true, 3, true, 0x2)
  {}

  /** Its task record, descriptors and local descriptor table. The record of task 512 lies
      over the local table. */
  method StoreContext(mem: array<byte>, taskNum: uint32, pdBase: bv32, code: bv32, priority: byte)
    requires mem.Length == MEMORY_SIZE && taskNum < MAP_BITS
    modifies mem
    ensures forall k: nat :: k < MEMORY_SIZE && !FixedStore(k) && !Within(k, RecordBase(taskNum), RECORD_SIZE) ==>
      mem[k] == old(mem[k])
    ensures ContextStored(mem[..], taskNum, pdBase, code, priority)
  {
    hide WordOf, HeaderFields, StackFields, RegisterFields, Load32, HeaderStored, StackStored, RegistersStored, DescriptorsStored, LocalTableStored, FieldHolds;
    var b := TASK_DATA_BASE + 128 * taskNum;
    StoreRecord(mem, b, HeaderFields(priority, code), 0, 7);
    ghost var withHeader := mem[..];
    StoreDescriptors(mem, taskNum);
    ghost var withDescriptors := mem[..];
    StoreLocalTable(mem, code);
    ghost var withTables := mem[..];
    StoreRecord(mem, b, StackFields(pdBase), 7, 47);
    ghost var withStack := mem[..];
    StoreRecord(mem, b, RegisterFields(WordOf(8 * (4 + 2 * taskNum) % 0x1_0000)), 47, RECORD_SIZE);
    FieldsKept(withHeader, mem[..], b, HeaderFields(priority, code), 0, 7);
    FieldsKept(withStack, mem[..], b, StackFields(pdBase), 7, 47);
    DescriptorsKept(withDescriptors, mem[..], taskNum);
    if taskNum != 512 {
      LocalTableKept(withTables, mem[..], b + 7, code);
    }
    if b + RECORD_SIZE <= MEMORY_SIZE {
      HeaderRead(mem[..], b, code, priority);
      StackRead(mem[..], b, pdBase);
      RegistersRead(mem[..], b, taskNum);
    }
  }

  ghost predicate ContextStored(n: seq<byte>, task: nat, pdBase: bv32, code: bv32, priority: byte)
    requires |n| == MEMORY_SIZE && task < MAP_BITS
  {
    && RecordStored(n, task, pdBase, code, priority) && DescriptorsStored(n, task)
    && (task != 512 ==> LocalTableStored(n, code))
  }

  lemma FieldsKept(m: seq<byte>, n: seq<byte>, b: nat, fields: seq<(nat, nat, bv32)>, lo: nat, hi: nat)
    requires Layout(fields, lo, hi) && forall i :: 0 <= i < |fields| ==> FieldHolds(m, b, fields[i])
    requires |m| == |n| && forall k :: b + lo <= k < b + hi && k < |m| ==> n[k] == m[k]
    ensures forall i :: 0 <= i < |fields| ==> FieldHolds(n, b, fields[i])
  {
    hide WordByte;
  }

  lemma DescriptorsKept(m: seq<byte>, n: seq<byte>, task: nat)
    requires |m| == |n| == MEMORY_SIZE && task < MAP_BITS && DescriptorsStored(m, task)
    requires task < 0xFFE ==> forall k :: 0x2020 + 16 * task <= k < 0x2030 + 16 * task ==> n[k] == m[k]
    ensures DescriptorsStored(n, task)
  {
    hide Join, DecodeSegment;
  }

  lemma LocalTableKept(m: seq<byte>, n: seq<byte>, lo: nat, code: bv32)
    requires |m| == |n| == MEMORY_SIZE && LocalTableStored(m, code) && SameOutside(m, n, lo, lo + 104)
    requires lo + 104 <= 0x1_5008 || 0x1_5018 <= lo
    ensures LocalTableStored(n, code)
  {
    hide Join, DecodeSegment;
  }

  /** Everything `creat_task` stores once it has its three pages. */
  method StoreTask(mem: array<byte>, taskNum: uint32, first: uint32, second: uint32, third: uint32, priority: byte)
    requires mem.Length == MEMORY_SIZE && taskNum < MAP_BITS
    requires first < MAP_BITS && second < MAP_BITS && third < MAP_BITS
    modifies mem
    ensures forall k: nat :: k < MEMORY_SIZE && !FixedStore(k) && !Stored(taskNum, second, third, k) ==> mem[k] == old(mem[k])
    ensures PdeStands(taskNum, second, third) ==>
      Load32(mem[..], PdeAddress(second, third)) == PageWord(WordOf(8 * first), 1, 0, 1)
    ensures ContextStored(mem[..], taskNum, WordOf(8 * first), WordOf(8 * third), priority)
  {
    hide WordOf, PageWord, Join, EntryStored, ContextStored;
    StoreEntries(mem, first, second, third);
    ghost var a, withEntries := PdeAddress(second, third), mem[..];
    StoreContext(mem, taskNum, WordOf(8 * first), WordOf(8 * third), priority);
    assert PdeStands(taskNum, second, third) ==>
      forall k :: a <= k < a + 4 ==> mem[k] == withEntries[k];
  }

  // ---------- the call ----------

  /** What one call does to the memory. A failing call leaves the bitmaps as `AfterCall`
      says. So does a successful one, outside the bytes its other stores reach. */
  ghost predicate CallStep(m: seq<byte>, n: seq<byte>, done: Outcome)
    requires |m| == MEMORY_SIZE && |n| == MEMORY_SIZE
  {
    var after := AfterCall(PoolsOf(m));
    && done == CallOutcome(PoolsOf(m))
    && (!done.Created? ==> PoolsOf(n) == after)
    && (done.Created? ==>
          && |done.pages| == 3
          && BitsStand(n, TASK_MAP_BASE, after.tasks, done) && BitsStand(n, MEM_MAP_BASE, after.pages, done)
          && (PdeStands(done.task, done.pages[1], done.pages[2]) ==>
                Load32(n, PdeAddress(done.pages[1], done.pages[2])) == PageWord(WordOf(8 * done.pages[0]), 1, 0, 1)))
  }

  /** The bits of a map are those of the free set, outside the bytes `done` stored to. */
  ghost predicate BitsStand(n: seq<byte>, base: nat, free: set<nat>, done: Outcome)
    requires |n| == MEMORY_SIZE && base + MAP_BYTES <= MEMORY_SIZE
    requires done.Created? && |done.pages| == 3
  {
    forall i: nat :: i < MAP_BITS && !Stored(done.task, done.pages[1], done.pages[2], base + i / 8) ==>
      (Used(n, base, i) <==> i !in free)
  }

  /** A scan of one bitmap and, unless it is full, the write of the index found: the pair of
      calls by which `creat_task` obtains its task number and each page. */
  method Take(mem: array<byte>, base: nat, other: nat) returns (r: uint32)
    requires mem.Length == MEMORY_SIZE
    requires (base == MEM_MAP_BASE && other == TASK_MAP_BASE) || (base == TASK_MAP_BASE && other == MEM_MAP_BASE)
    modifies mem
    ensures old(Free(mem[..], base)) == {} ==> r == NONE && mem[..] == old(mem[..])
    ensures old(Free(mem[..], base)) != {} ==>
      && r < MAP_BITS && r == Greatest(old(Free(mem[..], base)))
      && Free(mem[..], base) == old(Free(mem[..], base)) - {r as nat}
    ensures Free(mem[..], other) == old(Free(mem[..], other))
    ensures SameOutside(old(mem[..]), mem[..], base, base + MAP_BYTES)
  {
    hide Used, Flipped;
    r := GetAvailable(mem, base);
    if r != NONE {
      GreatestIsUnique(Free(mem[..], base), r);
      WritesAreIndependent(mem[..], base, other, r);
      MapWrite(mem, base, r);
    }
  }

  lemma {:induction false} TakenAppends(free: set<nat>, n: nat)
    ensures var r := Taken(free, n);
            Taken(free, n + 1) == if free - Elements(r) == {} then r else r + [Greatest(free - Elements(r))]
    decreases n
  {
    hide Taken, Greatest, Elements, Descending;
    if n != 0 && free != {} {
      var g := Greatest(free);
      var rest, r := Taken(free - {g}, n - 1), Taken(free, n);
      TakenStep(free, n);
      TakenStep(free, n + 1);
      TakenAppends(free - {g}, n - 1);
      TakenDescends(free - {g}, n - 1);
      ConsDescending(g, rest, free);
      assert free - Elements(r) == free - {g} - Elements(rest);
      if free - Elements(r) != {} {
        var next := Greatest(free - Elements(r));
        assert [g] + (rest + [next]) == r + [next];
      }
    } else {
      TakenStep(free, n);
      TakenStep(free, n + 1);
      assert free - Elements([]) == free;
      if free != {} {
        TakenStep(free - {Greatest(free)}, 0);
      }
    }
  }

  /** `n` scans and writes of one bitmap in turn, on memory: the indexes found are `Taken`. */
  method TakeInTurn(mem: array<byte>, base: nat, other: nat, n: nat) returns (found: seq<nat>)
    requires mem.Length == MEMORY_SIZE
    requires (base == MEM_MAP_BASE && other == TASK_MAP_BASE) || (base == TASK_MAP_BASE && other == MEM_MAP_BASE)
    modifies mem
    ensures found == Taken(old(Free(mem[..], base)), n)
    ensures Free(mem[..], base) == old(Free(mem[..], base)) - Elements(found)
    ensures Free(mem[..], other) == old(Free(mem[..], other))
    ensures SameOutside(old(mem[..]), mem[..], base, base + MAP_BYTES)
  {
    hide Free, Taken, Greatest;
    ghost var free := Free(mem[..], base);
    TakenStep(free, 0);
    found := [];
    for i := 0 to n
      invariant found == Taken(free, i)
      invariant Free(mem[..], base) == free - Elements(found)
      invariant Free(mem[..], other) == old(Free(mem[..], other))
      invariant SameOutside(old(mem[..]), mem[..], base, base + MAP_BYTES)
    {
      TakenAppends(free, i);
      var r := Take(mem, base, other);
      if r != NONE {
        ElementsAppended(found, r);
        found := found + [r];
      }
    }
  }

  lemma ElementsAppended(s: seq<nat>, x: nat)
    ensures Elements(s + [x]) == Elements(s) + {x}
  {}

  /** `creat_task` on a flat memory. `done` tells the outcome; the source prints a message
      for each failure. */
  method CreatTask(mem: array<byte>, priority: byte) returns (done: Outcome)
    requires mem.Length == MEMORY_SIZE
    modifies mem
    ensures CallStep(old(mem[..]), mem[..], done)
    ensures forall k: nat :: k < MEMORY_SIZE && !InMaps(k) && !FixedStore(k)
              && (done.Created? && |done.pages| == 3 ==> !Stored(done.task, done.pages[1], done.pages[2], k))
              ==> mem[k] == old(mem[k])
    ensures done.Created? ==>
      && |done.pages| == 3 && done.task < MAP_BITS && done.pages[0] < MAP_BITS && done.pages[2] < MAP_BITS
      && ContextStored(mem[..], done.task, WordOf(8 * done.pages[0]), WordOf(8 * done.pages[2]), priority)
  {
    hide WordOf, Free, Greatest, Taken, PageWord, Load32, Stored, FixedStore, PdeStands, ContextStored;
    ghost var start := PoolsOf(mem[..]);
    var taskNum := Take(mem, TASK_MAP_BASE, MEM_MAP_BASE);
    if taskNum == NONE {
      return NoTaskNumber;
    }
    TakenUnfolds(start.pages);
    var first := Take(mem, MEM_MAP_BASE, TASK_MAP_BASE);
    if first == NONE {
      GiveBack(mem, taskNum);
      return NoPage;
    }
    EntryAside(mem, first * 8 % 0x40_0000 / 8, TEMP_PT_BASE, WordOf(first * 8));
    var second := Take(mem, MEM_MAP_BASE, TASK_MAP_BASE);
    if second == NONE {
      GiveBack(mem, taskNum);
      return NoPage;
    }
    assert PoolsOf(mem[..]) == Pools(start.tasks - {taskNum}, start.pages - {first, second});
    EntryAside(mem, 0, KERNEL_PT, WordOf(first * 8));
    var third := Take(mem, MEM_MAP_BASE, TASK_MAP_BASE);
    if third == NONE {
      GiveBack(mem, taskNum);
      return NoPage;
    }
    assert PoolsOf(mem[..]) == Pools(start.tasks - {taskNum}, start.pages - {first, second, third});
    ghost var marked := mem[..];
    StoreTask(mem, taskNum, first, second, third, priority);
    done := Created(taskNum, [first, second, third]);
    StandingBits(marked, mem[..], done);
  }

  /** Outside the bytes stored to, the bits are those of the memory before the stores. */
  lemma StandingBits(m: seq<byte>, n: seq<byte>, done: Outcome)
    requires |m| == |n| == MEMORY_SIZE && done.Created? && |done.pages| == 3
    requires forall k: nat :: k < MEMORY_SIZE && !FixedStore(k) && !Stored(done.task, done.pages[1], done.pages[2], k)
               ==> n[k] == m[k]
    ensures BitsStand(n, TASK_MAP_BASE, Free(m, TASK_MAP_BASE), done)
    ensures BitsStand(n, MEM_MAP_BASE, Free(m, MEM_MAP_BASE), done)
  {
    hide BitOfByte, Stored;
  }

  /** A page-table store at one of the fixed places, clear of both bitmaps. */
  method EntryAside(mem: array<byte>, num: uint32, table: nat, address: bv32)
    requires mem.Length == MEMORY_SIZE && (table == TEMP_PT_BASE || (table == KERNEL_PT && num == 0))
    modifies mem
    ensures PoolsOf(mem[..]) == old(PoolsOf(mem[..]))
    ensures forall k: nat :: k < MEMORY_SIZE && !FixedStore(k) ==> mem[k] == old(mem[k])
  {
    hide PageWord, Entry;
    ghost var was := mem[..];
    PageEntrySet(mem, num, table, address, 0, 1, 1);
    SamePools(was, mem[..]);
  }

  /** `task_num_write(task_num)` in a failure branch: the number is free again. */
  method GiveBack(mem: array<byte>, taskNum: uint32)
    requires mem.Length == MEMORY_SIZE && taskNum < MAP_BITS
    modifies mem
    ensures taskNum !in old(PoolsOf(mem[..])).tasks ==>
      PoolsOf(mem[..]) == old(PoolsOf(mem[..])).(tasks := old(PoolsOf(mem[..])).tasks + {taskNum})
    ensures SameOutside(old(mem[..]), mem[..], TASK_MAP_BASE, TASK_MAP_BASE + MAP_BYTES)
  {
    hide Used, Flipped;
    WritesAreIndependent(mem[..], TASK_MAP_BASE, MEM_MAP_BASE, taskNum);
    MapWrite(mem, TASK_MAP_BASE, taskNum);
  }

  /** What the three requests of one call find, case by case. */
  lemma TakenUnfolds(pages: set<nat>)
    ensures pages == {} ==> Taken(pages, 3) == [] && Elements([]) == {}
    ensures pages != {} ==>
      var a := Greatest(pages);
      && (pages - {a} == {} ==> Taken(pages, 3) == [a] && Elements([a]) == {a})
      && (pages - {a} != {} ==>
            var b := Greatest(pages - {a});
            && (pages - {a, b} == {} ==> Taken(pages, 3) == [a, b] && Elements([a, b]) == {a, b})
            && (pages - {a, b} != {} ==>
                  var c := Greatest(pages - {a, b});
                  Taken(pages, 3) == [a, b, c] && Elements([a, b, c]) == {a, b, c}))
  {
    hide Greatest, Taken, Elements;
    TakenStep(pages, 3);
    if pages != {} {
      var a := Greatest(pages);
      TakenStep(pages - {a}, 2);
      ElementsListed(a, a, a);
      if pages - {a} != {} {
        var b := Greatest(pages - {a});
        assert pages - {a} - {b} == pages - {a, b};
        TakenStep(pages - {a, b}, 1);
        ElementsListed(a, b, b);
        if pages - {a, b} != {} {
          var c := Greatest(pages - {a, b});
          TakenStep(pages - {a, b} - {c}, 0);
          ElementsListed(a, b, c);
        }
      }
    }
  }

  lemma TakenStep(s: set<nat>, n: nat)
    ensures Taken(s, n) == if n == 0 || s == {} then [] else [Greatest(s)] + Taken(s - {Greatest(s)}, n - 1)
    ensures Elements([]) == {}
  {}

  lemma ElementsListed(a: nat, b: nat, c: nat)
    ensures Elements([a]) == {a} && Elements([a, b]) == {a, b} && Elements([a, b, c]) == {a, b, c}
  {}
}
