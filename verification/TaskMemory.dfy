/** Runs of `creat_task` on memory. A successful call also stores entries, a record and
    descriptors, and some of these can land in the bitmaps: the results about the bitmaps
    hold while they do not, and from boot the first call where they do is known. */
module TaskMemory {
  import opened CTypes
  import opened Memory
  import opened Bitmap
  import opened Tables
  import opened TaskStores
  import opened Tasks
  import opened TaskRuns

  /** `ms` are the memories before, between and after the calls with outcomes `outs`. */
  ghost predicate IsRun(ms: seq<seq<byte>>, outs: seq<Outcome>)
  {
    && |ms| == |outs| + 1
    && (forall i :: 0 <= i < |ms| ==> |ms[i]| == MEMORY_SIZE)
    && forall i :: 0 <= i < |outs| ==> CallStep(ms[i], ms[i + 1], outs[i])
  }

  /** Any number of calls is such a run. */
  method RunCalls(mem: array<byte>, priorities: seq<byte>) returns (outs: seq<Outcome>, ghost ms: seq<seq<byte>>)
    requires mem.Length == MEMORY_SIZE
    modifies mem
    ensures |outs| == |priorities| && IsRun(ms, outs)
    ensures ms[0] == old(mem[..]) && ms[|outs|] == mem[..]
  {
    hide CallStep;
    outs, ms := [], [mem[..]];
    for i := 0 to |priorities|
      invariant |outs| == i && IsRun(ms, outs)
      invariant ms[0] == old(mem[..]) && ms[i] == mem[..]
    {
      var done := CreatTask(mem, priorities[i]);
      outs, ms := outs + [done], ms + [mem[..]];
    }
  }

  /** The stores of a call with this outcome miss both bitmaps. */
  ghost predicate Clear(done: Outcome)
  {
    done.Created? ==> |done.pages| == 3 && StoresClear(done.task, done.pages[1], done.pages[2])
  }

  /** So do those of the first `n` calls, as told from the free sets at the start. */
  ghost predicate ClearRun(p: Pools, n: nat)
  {
    forall i: nat :: i < n ==> Clear(OutcomeAt(p, i))
  }

  ghost predicate WithinMaps(p: Pools)
  {
    (forall i :: i in p.tasks ==> i < MAP_BITS) && forall i :: i in p.pages ==> i < MAP_BITS
  }

  lemma PagesInOrder(p: Pools)
    requires WithinMaps(p) && CallOutcome(p).Created?
    ensures var done := CallOutcome(p);
            |done.pages| == 3 && done.task < MAP_BITS && done.pages[2] < done.pages[1] < done.pages[0] < MAP_BITS
  {
    hide CallOutcome, AfterCall;
    CallIsAllOrFull(p);
    assert CallOutcome(p).pages[0] in Elements(CallOutcome(p).pages);
  }

  /** A call whose stores miss the bitmaps does to them exactly what `AfterCall` says; a
      failing call always does. */
  lemma ClearCallKeepsPools(m: seq<byte>, n: seq<byte>, done: Outcome)
    requires |m| == |n| == MEMORY_SIZE && CallStep(m, n, done) && Clear(done)
    ensures done == CallOutcome(PoolsOf(m)) && PoolsOf(n) == AfterCall(PoolsOf(m))
  {
    var p, after := PoolsOf(m), AfterCall(PoolsOf(m));
    InsideMaps(m);
    if done.Created? {
      assert forall i :: i in after.tasks ==> i < MAP_BITS;
      assert forall i :: i in after.pages ==> i < MAP_BITS;
      hide CallOutcome, AfterCall, Used, StoresClear, Stored, PdeStands;
      PagesInOrder(p);
      StoresMissMapsIff(done.task, done.pages[1], done.pages[2]);
      forall i: nat | i < MAP_BITS
        ensures Used(n, TASK_MAP_BASE, i) <==> i !in after.tasks
        ensures Used(n, MEM_MAP_BASE, i) <==> i !in after.pages
      {
        assert InMaps(TASK_MAP_BASE + i / 8) && InMaps(MEM_MAP_BASE + i / 8);
      }
      assert Free(n, TASK_MAP_BASE) == after.tasks && Free(n, MEM_MAP_BASE) == after.pages;
    }
  }

  lemma InsideMaps(m: seq<byte>)
    requires |m| == MEMORY_SIZE
    ensures WithinMaps(PoolsOf(m))
  {
    hide Used;
  }

  /** While the stores are clear, the run of memories is the run of free sets. The call at
      which they stop being clear still has the outcome the free sets give it. */
  lemma {:induction false} RunIsPools(ms: seq<seq<byte>>, outs: seq<Outcome>, n: nat)
    requires IsRun(ms, outs) && n <= |outs| && ClearRun(PoolsOf(ms[0]), n)
    ensures PoolsOf(ms[n]) == RunPools(PoolsOf(ms[0]), n)
    ensures n < |outs| ==> outs[n] == OutcomeAt(PoolsOf(ms[0]), n)
  {
    hide CallOutcome, AfterCall, PoolsOf;
    if n != 0 {
      RunIsPools(ms, outs, n - 1);
      ClearCallKeepsPools(ms[n - 1], ms[n], outs[n - 1]);
    }
    if n < |outs| {
      assert CallStep(ms[n], ms[n + 1], outs[n]);
    }
  }

  // ---------- what the callers see ----------

  ghost function CreatedCount(outs: seq<Outcome>): nat
  {
    if outs == [] then 0
    else CreatedCount(outs[..|outs| - 1]) + if outs[|outs| - 1].Created? then 1 else 0
  }

  ghost function PagesOf(outs: seq<Outcome>): seq<nat>
  {
    if outs == [] then []
    else PagesOf(outs[..|outs| - 1]) + if outs[|outs| - 1].Created? then outs[|outs| - 1].pages else []
  }

  ghost function TasksOf(outs: seq<Outcome>): seq<nat>
  {
    if outs == [] then []
    else TasksOf(outs[..|outs| - 1]) + if outs[|outs| - 1].Created? then [outs[|outs| - 1].task] else []
  }

  lemma {:induction false} OutcomesCollected(ms: seq<seq<byte>>, outs: seq<Outcome>, n: nat)
    requires IsRun(ms, outs) && n <= |outs| && ClearRun(PoolsOf(ms[0]), n)
    ensures CreatedCount(outs[..n]) == Successes(PoolsOf(ms[0]), n)
    ensures PagesOf(outs[..n]) == Handed(PoolsOf(ms[0]), n)
    ensures TasksOf(outs[..n]) == HandedTasks(PoolsOf(ms[0]), n)
  {
    hide CallOutcome, AfterCall, PoolsOf;
    if n != 0 {
      OutcomesCollected(ms, outs, n - 1);
      RunIsPools(ms, outs, n - 1);
      assert outs[..n][..n - 1] == outs[..n - 1];
    }
  }

  /** On memory: while the stores miss the bitmaps, exactly the first min(free task numbers,
      free pages / 3) calls succeed, and no task number and no page is handed out twice. */
  lemma RunIsExact(ms: seq<seq<byte>>, outs: seq<Outcome>)
    requires IsRun(ms, outs) && ClearRun(PoolsOf(ms[0]), |outs|)
    ensures var p := PoolsOf(ms[0]);
            && (forall i :: 0 <= i < |outs| ==> (outs[i].Created? <==> i < Capacity(p)))
            && CreatedCount(outs) == Least(|outs|, Capacity(p))
            && Descending(PagesOf(outs)) && Elements(PagesOf(outs)) <= p.pages && |PagesOf(outs)| == 3 * CreatedCount(outs)
            && Descending(TasksOf(outs)) && Elements(TasksOf(outs)) <= p.tasks && |TasksOf(outs)| == CreatedCount(outs)
  {
    hide CallOutcome, AfterCall, PoolsOf, Capacity, Descending, Elements, CallStep, Clear;
    var p, n := PoolsOf(ms[0]), |outs|;
    forall i | 0 <= i < n
      ensures outs[i].Created? <==> i < Capacity(p)
    {
      RunIsPools(ms, outs, i);
      CapacityIsExact(p, i);
    }
    OutcomesCollected(ms, outs, n);
    assert outs[..n] == outs;
    CapacityIsExact(p, n);
    NoPageHandedTwice(p, n);
    NoTaskHandedTwice(p, n);
  }

  /** After a failure every later call of the run fails alike and changes neither bitmap,
      whatever the calls before it stored. */
  lemma {:induction false} FailureIsFinalOnMemory(ms: seq<seq<byte>>, outs: seq<Outcome>, i: nat, j: nat)
    requires IsRun(ms, outs) && i <= j < |outs| && !outs[i].Created?
    ensures outs[j] == outs[i] && PoolsOf(ms[j + 1]) == PoolsOf(ms[i + 1])
    decreases j
  {
    hide CallOutcome, AfterCall, PoolsOf;
    ClearCallKeepsPools(ms[i], ms[i + 1], outs[i]);
    if i < j {
      FailureIsFinalOnMemory(ms, outs, i, j - 1);
      FailureIsFinal(PoolsOf(ms[i]), 0);
      ClearCallKeepsPools(ms[j], ms[j + 1], outs[j]);
      FailureIsFinal(PoolsOf(ms[i]), 1);
    }
  }

  // ---------- from boot ----------

  /** The calls from boot whose stores miss the bitmaps. */
  const BOOT_CLEAR: nat := 331605

  lemma BootCall(n: nat)
    requires n < BOOT_CAPACITY
    ensures OutcomeAt(BootPools(), n) == Created(MAP_BITS - 1 - n, [MAP_BITS - 3 * n - 1, MAP_BITS - 3 * n - 2, MAP_BITS - 3 * n - 3])
  {
    BootRunSucceeds(n);
  }

  /** From boot the stores miss the bitmaps for exactly the first 331605 calls. */
  lemma BootIsClearIff(n: nat)
    ensures ClearRun(BootPools(), n) <==> n <= BOOT_CLEAR
  {
    hide OutcomeAt;
    forall i: nat | i < n && i <= BOOT_CLEAR
      ensures Clear(OutcomeAt(BootPools(), i)) <==> i < BOOT_CLEAR
    {
      BootCall(i);
    }
    if n > BOOT_CLEAR {
      assert !Clear(OutcomeAt(BootPools(), BOOT_CLEAR));
    }
  }

  /** Their outcomes, on memory. */
  lemma BootRunOnMemory(ms: seq<seq<byte>>, outs: seq<Outcome>, n: nat)
    requires IsRun(ms, outs) && PoolsOf(ms[0]) == BootPools() && n < |outs| && n <= BOOT_CLEAR
    ensures outs[n] == Created(MAP_BITS - 1 - n, [MAP_BITS - 3 * n - 1, MAP_BITS - 3 * n - 2, MAP_BITS - 3 * n - 3])
    ensures PoolsOf(ms[n]) == Pools(Interval(0, MAP_BITS - n), Interval(1024, MAP_BITS - 3 * n))
  {
    hide PoolsOf, BootPools, OutcomeAt, CallStep, Clear;
    BootIsClearIff(n);
    RunIsPools(ms, outs, n);
    BootCall(n);
    BootRunSucceeds(n);
  }

  /** The directory entry stored by call 331605: its page table lies, by the shift of 3, at
      the last word but one of the task bitmap. */
  const REACHED: nat := 0x6_8FF8

  lemma ReachedPlace()
    ensures PdeAddress(53759, 53758) == REACHED && PdeStands(716970, 53759, 53758)
  {}

  lemma ReachedWord(pageTable: bv32)
    requires pageTable == 0x6_9000
    ensures PageWord(pageTable, 1, 0, 1) == 0x6_9005
    ensures !BitOfWord(0x6_9005, 31)
  {}

  /** In the memory after call 331605, task number 1048543 is free again, no greater one is,
      and the page bitmap is as it should be. */
  lemma ReachedBits(n: seq<byte>, done: Outcome)
    requires |n| == MEMORY_SIZE && done == Created(716970, [53760, 53759, 53758])
    requires BitsStand(n, TASK_MAP_BASE, Interval(0, 716970), done) && BitsStand(n, MEM_MAP_BASE, Interval(1024, 53758), done)
    requires Load32(n, REACHED) == 0x6_9005
    ensures 1048543 in PoolsOf(n).tasks && Greatest(PoolsOf(n).tasks) == 1048543
    ensures PoolsOf(n).pages == Interval(1024, 53758)
  {
    hide Used, BitOfWord, Load32, PageWord;
    ReachedWord(0x6_9000);
    WordViewAgrees(n, TASK_MAP_BASE, 32766, 31);
    var free := PoolsOf(n).tasks;
    assert 1048543 in free;
    forall i: nat | 1048543 < i < MAP_BITS
      ensures Used(n, TASK_MAP_BASE, i)
    {
      assert !Stored(716970, 53759, 53758, TASK_MAP_BASE + i / 8);
    }
    forall i: nat | i < MAP_BITS
      ensures Used(n, MEM_MAP_BASE, i) <==> i !in Interval(1024, 53758)
    {
      assert !Stored(716970, 53759, 53758, MEM_MAP_BASE + i / 8);
    }
    assert PoolsOf(n).pages == Interval(1024, 53758);
  }

  /** So the run from boot is not one of fresh task numbers: the call after number 331605
      hands out 1048543, which call 32 already did. */
  lemma BootRunReissues(ms: seq<seq<byte>>, outs: seq<Outcome>)
    requires IsRun(ms, outs) && PoolsOf(ms[0]) == BootPools() && |outs| > BOOT_CLEAR + 1
    ensures outs[BOOT_CLEAR + 1] == Created(1048543, [53757, 53756, 53755])
    ensures outs[32].Created? && outs[32].task == 1048543
  {
    hide WordOf, PoolsOf, BootPools, CallOutcome, AfterCall, BitsStand, Load32, PageWord, Interval, PdeStands;
    BootRunOnMemory(ms, outs, 32);
    BootRunOnMemory(ms, outs, BOOT_CLEAR);
    var m, n, done := ms[BOOT_CLEAR], ms[BOOT_CLEAR + 1], outs[BOOT_CLEAR];
    assert CallStep(m, n, done);
    CallOnIntervals(716971, 1024, 53761);
    ReachedPlace();
    WordOfValue(0x6_9000, 8 * 53760);
    ReachedWord(WordOf(8 * 53760));
    ReachedBits(n, done);
    assert CallStep(n, ms[BOOT_CLEAR + 2], outs[BOOT_CLEAR + 1]);
    NextOutcome(PoolsOf(n));
  }

  lemma NextOutcome(p: Pools)
    requires 1048543 in p.tasks && Greatest(p.tasks) == 1048543 && p.pages == Interval(1024, 53758)
    ensures CallOutcome(p) == Created(1048543, [53757, 53756, 53755])
  {
    hide Taken, Greatest, Interval;
    CallOnIntervals(1, 1024, 53758);
  }

  // ---------- under the tables of boot ----------

  /** Under the tables of boot the first call from boot faults: its directory entry goes to
      linear address 0x7FFFF4. `n` is the memory before that store. */
  lemma FirstCallFaults(m: seq<byte>, n: seq<byte>)
    requires PagingTables(m) && PoolsOf(m) == BootPools() && |n| == |m|
    requires forall k: nat :: k < |m| && !InMaps(k) && !Within(k, KERNEL_PT, 4) ==> n[k] == m[k]
    ensures var done := CallOutcome(PoolsOf(m));
            && done == Created(1048575, [1048575, 1048574, 1048573])
            && PdeAddress(done.pages[1], done.pages[2]) == 0x7F_FFF4 && Stored(done.task, done.pages[1], done.pages[2], 0x7F_FFF4)
            && PageWalk(n, KERNEL_PD, 0x7F_FFF4) == Fault
  {
    FirstStore();
    assert MEMORY_SIZE >= 0x1000;
    hide *;
    StillEmpty(m, n);
    WalkFaults(n, 0x7F_FFF4);
  }

  lemma FirstStore()
    ensures CallOutcome(BootPools()) == Created(1048575, [1048575, 1048574, 1048573])
    ensures PdeAddress(1048574, 1048573) == 0x7F_FFF4 && Stored(1048575, 1048574, 1048573, 0x7F_FFF4)
  {
    hide CallOutcome, BootPools;
    BootCall(0);
  }

  lemma StillEmpty(m: seq<byte>, n: seq<byte>)
    requires PagingTables(m) && |n| == |m|
    requires forall k: nat :: k < |m| && !InMaps(k) && !Within(k, KERNEL_PT, 4) ==> n[k] == m[k]
    ensures EmptyFrom4MB(n)
  {
    hide Join;
    forall k | 0 <= k < 1024
      ensures Entry(n, KERNEL_PD, k) == Entry(m, KERNEL_PD, k) && Entry(n, TEMP_PT_BASE, k) == Entry(m, TEMP_PT_BASE, k)
    {
    }
  }
}
