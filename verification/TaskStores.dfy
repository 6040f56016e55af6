/** Where the stores of a successful `creat_task` call land. Page numbers become addresses by
    a shift of 3, so most of these are not where the page is. */
module TaskStores {
  import opened Bitmap

  const TASK_DATA_BASE: nat := 0x5000
  const TASK_LDT_BASE: nat := 0x1_5000
  const RECORD_SIZE: nat := 111
  const FOUR_MB: nat := 0x40_0000

  /** The directory entry stored through the second page's address. */
  function PdeAddress(second: nat, third: nat): nat
  {
    8 * second + 4 * (8 * third / FOUR_MB)
  }

  function PteNumber(page: nat): nat
  {
    8 * page % FOUR_MB / 8
  }

  /** The page-table entry stored through it, when its number passes the guard. */
  function PteAddress(second: nat, third: nat): nat
  {
    8 * second + 4 * PteNumber(third)
  }

  function RecordBase(task: nat): nat
  {
    TASK_DATA_BASE + 128 * task
  }

  predicate Within(k: nat, start: nat, size: nat)
  {
    start <= k < start + size
  }

  predicate EntryStored(second: nat, third: nat, k: nat)
  {
    || Within(k, PdeAddress(second, third), 4)
    || (PteNumber(third) <= 1023 && Within(k, PteAddress(second, third), 4))
  }

  /** Byte `k` belongs to one of the three stores whose place depends on what was allocated. */
  predicate Stored(task: nat, second: nat, third: nat, k: nat)
  {
    EntryStored(second, third, k) || Within(k, RecordBase(task), RECORD_SIZE)
  }

  /** The stores at fixed places: the temporary table, entry 0 of the kernel's table, the
      local descriptors and the global ones. */
  predicate FixedStore(k: nat)
  {
    || Within(k, 0x4_8000, 0x1000) || Within(k, 0x1000, 4)
    || Within(k, TASK_LDT_BASE + 8, 16) || Within(k, 0x2000, 0x1_0000)
  }

  predicate InMaps(k: nat)
  {
    Within(k, MEM_MAP_BASE, MAP_BYTES) || Within(k, TASK_MAP_BASE, MAP_BYTES)
  }

  /** What a caller can check of the task number and the pages. */
  predicate StoresClear(task: nat, second: nat, third: nat)
  {
    && !(0x4000 <= second < 0x8000) && !(0x9200 <= second < 0xD200)
    && (third < 1024 ==> !(0x8000 <= 2 * second + third < 0x1_0000) && !(0x1_2400 <= 2 * second + third < 0x1_A400))
    && !(864 <= task < 1888) && !(2176 <= task < 3200)
  }

  lemma PteNumberOf(page: nat)
    requires page < MAP_BITS
    ensures PteNumber(page) == page % 0x8_0000
    ensures 8 * page / FOUR_MB == page / 0x8_0000 <= 1
  {
    var q, r := page / 0x8_0000, page % 0x8_0000;
    assert 8 * page == FOUR_MB * q + 8 * r;
  }

  lemma ClearMissesMaps(task: nat, second: nat, third: nat)
    requires third < second < MAP_BITS && StoresClear(task, second, third)
    ensures forall k: nat :: InMaps(k) ==> !Stored(task, second, third, k)
  {
    PteNumberOf(third);
  }

  /** The stores of a successful call miss both bitmaps exactly when its task number and its
      second and third page meet the condition. */
  lemma StoresMissMapsIff(task: nat, second: nat, third: nat)
    requires third < second < MAP_BITS
    ensures (forall k: nat :: InMaps(k) ==> !Stored(task, second, third, k)) <==> StoresClear(task, second, third)
  {
    PteNumberOf(third);
    if StoresClear(task, second, third) {
      ClearMissesMaps(task, second, third);
    } else if 0x4000 <= second < 0x8000 || 0x9200 <= second < 0xD200 {
      var k := PdeAddress(second, third);
      assert InMaps(k) && Stored(task, second, third, k);
    } else if 864 <= task < 1888 || 2176 <= task < 3200 {
      var k := RecordBase(task);
      assert InMaps(k) && Stored(task, second, third, k);
    } else {
      var k := PteAddress(second, third);
      assert InMaps(k) && Stored(task, second, third, k);
    }
  }

  /** Under the tables of boot only addresses below 4 MB are mapped. A call stays below
      exactly when its task number and its second and third page meet this condition. */
  lemma StoresBelow4MBIff(task: nat, second: nat, third: nat)
    requires third < second < MAP_BITS
    ensures (forall k: nat :: Stored(task, second, third, k) ==> k < FOUR_MB)
       <==> second < 0x8_0000 && (third < 1024 ==> 2 * second + third < 0x10_0000) && task < 32608
  {
    PteNumberOf(third);
    if second >= 0x8_0000 {
      var k := PdeAddress(second, third);
      assert Stored(task, second, third, k);
    } else if third < 1024 && 2 * second + third >= 0x10_0000 {
      var k := PteAddress(second, third);
      assert Stored(task, second, third, k);
    } else if task >= 32608 {
      var k := RecordBase(task) + RECORD_SIZE - 1;
      assert Stored(task, second, third, k);
    }
  }
}
