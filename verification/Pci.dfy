/** `PCI_Enumeration`: the triple loop that fills the device table and the class lists. */
module Pci {
  import opened CTypes
  import opened PciModel

  class Enumerator {
    const device: array<Device>
    const deviceCount: array<uint8>        // of each kind; one spare
    const lists: seq<array<uint32>>        // the seven class lists, each with the cell past its end
    var continueFlag: uint8

    ghost predicate Valid()
    {
      && device.Length == DEVICE_MAX && deviceCount.Length == KINDS + 1 && |lists| == KINDS
      && (forall k :: 0 <= k < KINDS ==> lists[k].Length == Capacity(k) + 1)
      && (forall j, k :: 0 <= j < k < KINDS ==> lists[j] != lists[k])
    }

    constructor ()
      ensures Valid() && fresh(device) && fresh(deviceCount) && fresh(ListSet())
      ensures forall k :: 0 <= k < KINDS ==> ListHolds(k, [], lists[k][Capacity(k)])
    {
      device := new Device[DEVICE_MAX](_ => Device(0, 0, 0, 0, 0, 0, 0, 0, 0, 0, 0, 0));
      deviceCount := new uint8[KINDS + 1](_ => 0);
      var all := SentinelLists();
      lists := all;
      continueFlag := 0;
    }

    static method SentinelLists() returns (all: seq<array<uint32>>)
      ensures |all| == KINDS && forall k :: 0 <= k < KINDS ==> fresh(all[k]) && all[k].Length == Capacity(k) + 1
      ensures forall k, i :: 0 <= k < KINDS && 0 <= i < Capacity(k) ==> all[k][i] == NO_DEVICE
      ensures forall j, k :: 0 <= j < k < KINDS ==> all[j] != all[k]
    {
      all := [];
      for n := 0 to KINDS
        invariant |all| == n && forall k :: 0 <= k < n ==> fresh(all[k]) && all[k].Length == Capacity(k) + 1
        invariant forall k, i :: 0 <= k < n && 0 <= i < Capacity(k) ==> all[k][i] == NO_DEVICE
        invariant forall j, k :: 0 <= j < k < n ==> all[j] != all[k]
      {
        var list := new uint32[Capacity(n) + 1](_ => NO_DEVICE);
        all := all + [list];
      }
    }

    ghost function ListSet(): set<array<uint32>>
    {
      set k | 0 <= k < |lists| :: lists[k]
    }

    /** The table after the functions `found` were entered; `before` is the table as it was
        at the start. */
    ghost predicate TableHolds(conf: Config, found: seq<nat>, before: seq<Device>)
      reads device
      requires Valid() && |before| == DEVICE_MAX
    {
      && |found| <= DEVICE_MAX
      && (forall a :: 0 <= a < |found| ==> found[a] < FUNCTIONS && device[a] == Entry(conf, found[a], before[a].base0))
      && forall a :: |found| <= a < DEVICE_MAX ==> device[a] == before[a]
    }

    /** Class list `k` is the first of `indexes`, one more than its array holds, followed by
        sentinels; the cell past its end keeps `spare` unless there is that one more. */
    ghost predicate ListHolds(k: nat, indexes: seq<nat>, spare: uint32)
      reads deviceCount, ListSet()
      requires Valid() && k < KINDS
    {
      && deviceCount[k] == Kept(|indexes|, k)
      && (forall i :: 0 <= i < deviceCount[k] ==> lists[k][i] == indexes[i])
      && (forall i :: |indexes| <= i < Capacity(k) ==> lists[k][i] == NO_DEVICE)
      && (|indexes| <= Capacity(k) ==> lists[k][Capacity(k)] == spare)
    }

    ghost predicate ListsHold(conf: Config, found: seq<nat>, spare: seq<uint32>)
      reads deviceCount, ListSet()
      requires Valid() && |spare| == KINDS
    {
      forall k :: 0 <= k < KINDS ==> ListHolds(k, OfKind(conf, found, k), spare[k])
    }

    /** The cells past the ends of the class lists. */
    ghost function Spare(): seq<uint32>
      reads ListSet()
      requires Valid()
    {
      seq(KINDS, k requires 0 <= k < KINDS && Valid() reads ListSet() => lists[k][Capacity(k)])
    }

    /** `conf_bar`: its first line assigns the flag it means to test, so it returns at once. */
    method ConfBar() returns (base: uint32)
      modifies this
      ensures base == 0 && continueFlag == 1
    {
      continueFlag := 1;
      if continueFlag != 0 {
        return 0;
      }
      base := NO_DEVICE;
    }

    /** Fills the entry of function (i, j, k). */
    method FillEntry(conf: Config, i: uint8, j: uint8, k: uint8, ans: nat)
      requires Valid() && ans < DEVICE_MAX && j < 32 && k < 8
      modifies this, device
      ensures device[..] == old(device[..])[ans := Entry(conf, 256 * i + 8 * j + k, old(device[ans]).base0)]
      ensures device[ans].bus == i && device[ans].device == j && device[ans].function_ == k
    {
      LoopIndex(i, j, k);
      var vendor := conf(Address(i, j, k, 0)) % 0x1_0000;
      device[ans] := device[ans].(bus := i, device := j, function_ := k, vendorId := vendor);
      var classCode := conf(Address(i, j, k, 2)) / 0x100;
      var header := conf(Address(i, j, k, 3)) / 0x1_0000 % 0x100;
      device[ans] := device[ans].(classCode := classCode, headerType := header);
      ghost var withHeader := device[ans];
      var l := 0;
      while l < 6
        invariant l == 0 || l == 6
        invariant device[..] == old(device[..])[ans := if l == 0 then withHeader
                    else withHeader.(base1 := 0, base2 := 0, base3 := 0, base4 := 0, base5 := 0)]
        decreases 6 - l
      {
        // Every test of the source assigns `l`: the first to 0, which is false, the others
        // to a true value; one turn runs all of them.
        l := 0;
        l := 1;
        var base := ConfBar();
        device[ans] := device[ans].(base1 := base);
        l := 2;
        base := ConfBar();
        device[ans] := device[ans].(base2 := base);
        l := 3;
        base := ConfBar();
        device[ans] := device[ans].(base3 := base);
        l := 4;
        base := ConfBar();
        device[ans] := device[ans].(base4 := base);
        l := 5;
        base := ConfBar();
        device[ans] := device[ans].(base5 := base);
        l := l + 1;
      }
    }

    /** The chain of class tests: appends `ans` to the list of its kind, if it has one. */
    method Classify(ghost conf: Config, ghost n: nat, classCode: uint32, ans: nat, ghost found: seq<nat>,
                    ghost spare: seq<uint32>)
      requires Valid() && ans == |found| < DEVICE_MAX && classCode == ClassOf(conf, n)
      requires |spare| == KINDS && ListsHold(conf, found, spare)
      modifies deviceCount, ListSet()
      ensures ListsHold(conf, found + [n], spare)
    {
      hide KindOf, ClassOf, OfKind;
      var kind := KindOf(classCode);
      forall c | 0 <= c < KINDS
        ensures OfKind(conf, found + [n], c) == OfKind(conf, found, c) + if kind == c then [ans] else []
      {
        OfKindAppend(conf, found, n, c);
      }
      if kind < KINDS {
        assert ListHolds(kind, OfKind(conf, found, kind), spare[kind]);
        if deviceCount[kind] <= Capacity(kind) {
          lists[kind][deviceCount[kind]] := ans;
          deviceCount[kind] := deviceCount[kind] + 1;
        }
      }
    }

    ghost predicate Progress(conf: Config, n: nat, ans: nat, before: seq<Device>, spare: seq<uint32>)
      reads device, deviceCount, ListSet()
    {
      && Valid() && |before| == DEVICE_MAX && |spare| == KINDS && n <= FUNCTIONS
      && ans == |Found(conf, n)| <= DEVICE_MAX
      && TableHolds(conf, Found(conf, n), before) && ListsHold(conf, Found(conf, n), spare)
    }

    /** The body of the innermost loop, for function `n`; `full` is its early return. */
    method Visit(conf: Config, i: uint8, j: uint8, k: uint8, ans: nat,
                 ghost before: seq<Device>, ghost spare: seq<uint32>)
      returns (full: bool, ans': nat)
      requires Progress(conf, 256 * i + 8 * j + k, ans, before, spare) && j < 32 && k < 8
      modifies this, device, deviceCount, ListSet()
      ensures !full ==> Progress(conf, 256 * i + 8 * j + k + 1, ans', before, spare)
      ensures full ==> TableHolds(conf, Listed(conf), before) && ListsHold(conf, Listed(conf), spare)
    {
      hide Found, Listed, Address, Entry, OfKind;
      ghost var n := 256 * i + 8 * j + k;
      full, ans' := false, ans;
      LoopIndex(i, j, k);
      FoundStep(conf, n);
      var vendor := conf(Address(i, j, k, 0)) % 0x1_0000;
      if vendor != 0xFFFF {
        if ans >= DEVICE_MAX {
          ListedWhenFull(conf, n);
          return true, ans;
        }
        FillEntry(conf, i, j, k, ans);
        Classify(conf, n, conf(Address(i, j, k, 2)) / 0x100, ans, Found(conf, n), spare);
        ans' := ans + 1;
      }
    }

    /** Entry a of the table names the a-th listed function and holds what the registers of
        the function it names answer. */
    ghost predicate EntriesSpeak(conf: Config)
      reads device
      requires Valid()
    {
      forall a :: 0 <= a < |Listed(conf)| ==>
        var e := device[a];
        && e.device < 32 && e.function_ < 8 && 256 * e.bus + 8 * e.device + e.function_ == Listed(conf)[a]
        && e.vendorId == conf(RegisterAt(e.bus, e.device, e.function_, 0)) % 0x1_0000
        && e.classCode == conf(RegisterAt(e.bus, e.device, e.function_, 2)) / 0x100
        && e.headerType == conf(RegisterAt(e.bus, e.device, e.function_, 3)) / 0x1_0000 % 0x100
    }

    /** List `k` has `size` cells and holds, in increasing order, the table indexes of the
        functions of class `code`; one is missing only if one more than `size` come before it. */
    ghost predicate ListSpeaks(conf: Config, k: nat, code: nat, size: nat)
      reads deviceCount, ListSet()
      requires Valid() && k < KINDS
    {
      && lists[k].Length == size + 1 && deviceCount[k] <= size + 1
      && (forall i :: 0 <= i < deviceCount[k] ==> lists[k][i] < |Listed(conf)| && ClassAt(conf, Listed(conf)[lists[k][i]]) == code)
      && (forall i, j :: 0 <= i < j < deviceCount[k] ==> lists[k][i] < lists[k][j])
      && forall a :: 0 <= a < |Listed(conf)| && ClassAt(conf, Listed(conf)[a]) == code && a !in lists[k][..deviceCount[k]] ==>
           deviceCount[k] == size + 1 && forall i :: 0 <= i < deviceCount[k] ==> lists[k][i] < a
    }

    lemma TableSpeaks(conf: Config, before: seq<Device>)
      requires Valid() && |before| == DEVICE_MAX && TableHolds(conf, Listed(conf), before)
      ensures EntriesSpeak(conf)
    {
      hide Listed, Entry;
      forall a | 0 <= a < |Listed(conf)|
        ensures var e := device[a];
                && e.device < 32 && e.function_ < 8 && 256 * e.bus + 8 * e.device + e.function_ == Listed(conf)[a]
                && e.vendorId == conf(RegisterAt(e.bus, e.device, e.function_, 0)) % 0x1_0000
                && e.classCode == conf(RegisterAt(e.bus, e.device, e.function_, 2)) / 0x100
                && e.headerType == conf(RegisterAt(e.bus, e.device, e.function_, 3)) / 0x1_0000 % 0x100
      {
        EntryNamesItsFunction(conf, Listed(conf)[a], before[a].base0);
      }
    }

    lemma ListIsOfClass(conf: Config, k: nat, code: nat, spare: uint32)
      requires Valid() && k < KINDS && ListHolds(k, OfKind(conf, Listed(conf), k), spare)
      requires forall n :: 0 <= n < FUNCTIONS ==> (KindOf(ClassOf(conf, n)) == k <==> ClassAt(conf, n) == code)
      ensures ListSpeaks(conf, k, code, Capacity(k))
    {
      hide Listed, OfKind, KindOf, ClassOf, ClassAt, Capacity;
      ListedInAddressOrder(conf);
      OfKindIsExact(conf, Listed(conf), k);
      var all, f := OfKind(conf, Listed(conf), k), Listed(conf);
      assert forall i :: 0 <= i < |all| ==> all[i] in all;
      assert forall i :: 0 <= i < deviceCount[k] ==> lists[k][..deviceCount[k]][i] == all[i];
      forall a | 0 <= a < |f| && ClassAt(conf, f[a]) == code && a !in lists[k][..deviceCount[k]]
        ensures deviceCount[k] == Capacity(k) + 1 && forall i :: 0 <= i < deviceCount[k] ==> lists[k][i] < a
      {
        assert a in all;
        var j :| 0 <= j < |all| && all[j] == a;
      }
    }

    lemma Speaks(conf: Config, before: seq<Device>, spare: seq<uint32>)
      requires Valid() && |before| == DEVICE_MAX && |spare| == KINDS
      requires TableHolds(conf, Listed(conf), before) && ListsHold(conf, Listed(conf), spare)
      ensures EntriesSpeak(conf)
      ensures ListSpeaks(conf, 0, 0x0604, 16) && ListSpeaks(conf, 1, 0x0C03, 8) && ListSpeaks(conf, 2, 0x0106, 8)
      ensures ListSpeaks(conf, 3, 0x0101, 4) && ListSpeaks(conf, 4, 0x0601, 4) && ListSpeaks(conf, 5, 0x0C00, 4)
      ensures ListSpeaks(conf, 6, 0x0805, 4)
    {
      hide Listed, OfKind, KindOf, ClassOf, ClassAt, ListSpeaks, EntriesSpeak, Capacity;
      TableSpeaks(conf, before);
      ListsByClassCode(conf, 0);
      forall n | 0 <= n < FUNCTIONS
        ensures (KindOf(ClassOf(conf, n)) == 0 <==> ClassAt(conf, n) == 0x0604) && (KindOf(ClassOf(conf, n)) == 1 <==> ClassAt(conf, n) == 0x0C03)
        ensures (KindOf(ClassOf(conf, n)) == 2 <==> ClassAt(conf, n) == 0x0106) && (KindOf(ClassOf(conf, n)) == 3 <==> ClassAt(conf, n) == 0x0101)
        ensures (KindOf(ClassOf(conf, n)) == 4 <==> ClassAt(conf, n) == 0x0601) && (KindOf(ClassOf(conf, n)) == 5 <==> ClassAt(conf, n) == 0x0C00)
        ensures KindOf(ClassOf(conf, n)) == 6 <==> ClassAt(conf, n) == 0x0805
      {
        ListsByClassCode(conf, n);
      }
      ListIsOfClass(conf, 0, 0x0604, spare[0]);
      ListIsOfClass(conf, 1, 0x0C03, spare[1]);
      ListIsOfClass(conf, 2, 0x0106, spare[2]);
      ListIsOfClass(conf, 3, 0x0101, spare[3]);
      ListIsOfClass(conf, 4, 0x0601, spare[4]);
      ListIsOfClass(conf, 5, 0x0C00, spare[5]);
      ListIsOfClass(conf, 6, 0x0805, spare[6]);
    }

    /** The triple loop. */
    method Enumerate(conf: Config)
      requires Valid() && forall k :: 0 <= k < KINDS ==> ListHolds(k, [], Spare()[k])
      modifies this, device, deviceCount, ListSet()
      ensures TableHolds(conf, Listed(conf), old(device[..]))
      ensures ListsHold(conf, Listed(conf), old(Spare()))
      ensures forall k :: 0 <= k < KINDS ==>
        var all := OfKind(conf, Listed(conf), k);
        Spare()[k] == if |all| > Capacity(k) then all[Capacity(k)] else old(Spare()[k])
    {
      hide Found, Listed, OfKind, Entry;
      ghost var before, spare := device[..], Spare();
      NothingFound(conf);
      var ans := 0;
      var full := false;
      for i := 0 to 256
        invariant Progress(conf, 256 * i, ans, before, spare)
      {
        for j := 0 to 32
          invariant Progress(conf, 256 * i + 8 * j, ans, before, spare)
        {
          for k := 0 to 8
            invariant Progress(conf, 256 * i + 8 * j + k, ans, before, spare)
          {
            full, ans := Visit(conf, i, j, k, ans, before, spare);
            if full {
              return;
            }
          }
        }
      }
      ListedAtEnd(conf);
    }

    /** For every configuration space: the table is the first 1024 present functions, and each
        class list the first indexes of its kind. The cell past a list is written exactly when
        the table holds more of its kind than the list has room for. */
    method PciEnumeration(conf: Config)
      requires Valid() && forall k :: 0 <= k < KINDS ==> ListHolds(k, [], Spare()[k])
      modifies this, device, deviceCount, ListSet()
      ensures TableHolds(conf, Listed(conf), old(device[..]))
      ensures ListsHold(conf, Listed(conf), old(Spare()))
      ensures forall k :: 0 <= k < KINDS ==>
        var all := OfKind(conf, Listed(conf), k);
        Spare()[k] == if |all| > Capacity(k) then all[Capacity(k)] else old(Spare()[k])
      ensures EntriesSpeak(conf)
      ensures ListSpeaks(conf, 0, 0x0604, 16) && ListSpeaks(conf, 1, 0x0C03, 8) && ListSpeaks(conf, 2, 0x0106, 8)
      ensures ListSpeaks(conf, 3, 0x0101, 4) && ListSpeaks(conf, 4, 0x0601, 4) && ListSpeaks(conf, 5, 0x0C00, 4)
      ensures ListSpeaks(conf, 6, 0x0805, 4)
    {
      Enumerate(conf);
      Speaks(conf, old(device[..]), old(Spare()));
    }
  }

  lemma NothingFound(conf: Config)
    ensures Found(conf, 0) == [] && forall c :: OfKind(conf, [], c) == []
  {}

  lemma FoundStep(conf: Config, n: nat)
    ensures Found(conf, n + 1) == if Present(conf, n) then Found(conf, n) + [n] else Found(conf, n)
  {
    hide Present;
    assert Found(conf, n) + [] == Found(conf, n);
  }

  lemma ListedWhenFull(conf: Config, n: nat)
    requires n < FUNCTIONS && Present(conf, n) && |Found(conf, n)| == DEVICE_MAX
    ensures Listed(conf) == Found(conf, n)
  {
    hide Found, Present;
    FoundStep(conf, n);
    FoundGrows(conf, n + 1, FUNCTIONS);
    var all := Found(conf, FUNCTIONS);
    assert Found(conf, n) + [n] <= all;
    assert all[..DEVICE_MAX] == Found(conf, n);
  }

  lemma ListedAtEnd(conf: Config)
    requires |Found(conf, FUNCTIONS)| <= DEVICE_MAX
    ensures Listed(conf) == Found(conf, FUNCTIONS)
  {
    hide Found;
  }

  lemma OfKindAppend(conf: Config, found: seq<nat>, n: nat, kind: nat)
    ensures OfKind(conf, found + [n], kind)
         == OfKind(conf, found, kind) + if KindOf(ClassOf(conf, n)) == kind then [|found|] else []
  {
    hide KindOf, ClassOf;
    assert (found + [n])[..|found|] == found;
  }

  lemma LoopIndex(i: nat, j: nat, k: nat)
    requires i < 256 && j < 32 && k < 8
    ensures var n := 256 * i + 8 * j + k;
            && n < FUNCTIONS && n / 256 == i && n / 8 % 32 == j && n % 8 == k
  {
    assert (256 * i + 8 * j + k) / 8 == 32 * i + j;
  }
}
