/** What PCI enumeration finds, told from the configuration space alone. `conf` answers a
    read of the register whose address was put on port 0xCF8. */
module PciModel {
  import opened CTypes

  const DEVICE_MAX: nat := 1024
  const FUNCTIONS: nat := 0x1_0000
  const KINDS: nat := 7
  const NO_DEVICE: uint32 := 0xFFFF_FFFF

  type Config = nat -> uint32

  datatype Device = Device(bus: uint8, device: uint8, function_: uint8, vendorId: uint32, classCode: uint32,
                           headerType: uint8, base0: uint32, base1: uint32, base2: uint32,
                           base3: uint32, base4: uint32, base5: uint32)

  /** `Convert_to_32data`: the or of disjoint bit fields, written as a sum. */
  function Address(bus: nat, dev: nat, fn: nat, reg: nat): nat
  {
    0x8000_0000 + bus % 0x100 * 0x1_0000 + dev % 0x20 * 0x800 + fn % 8 * 0x100 + reg % 0x40 * 4
  }

  /** Function `n` in the order of the triple loop. */
  function Register(n: nat, reg: nat): nat
  {
    Address(n / 256, n / 8 % 32, n % 8, reg)
  }

  /** The loop order is the address order. */
  lemma RegisterIsLinear(n: nat, reg: nat)
    requires n < FUNCTIONS && reg < 0x40
    ensures Register(n, reg) == 0x8000_0000 + 0x100 * n + 4 * reg
  {
    assert n == n / 256 * 256 + n / 8 % 32 * 8 + n % 8;
  }

  predicate Present(conf: Config, n: nat)
  {
    conf(Register(n, 0)) % 0x1_0000 != 0xFFFF
  }

  function ClassOf(conf: Config, n: nat): uint32
  {
    conf(Register(n, 2)) / 0x100
  }

  /** Which of the seven class lists a class code belongs to; 7 for none. */
  function KindOf(classCode: uint32): (k: nat)
    ensures k <= KINDS
  {
    var class_ := classCode / 0x100 * 0x100;
    if class_ == 0x060400 then 0        // PCI bridge
    else if class_ == 0x0C0300 then 1   // USB
    else if class_ == 0x010600 then 2   // SATA
    else if class_ == 0x010100 then 3   // IDE
    else if class_ == 0x060100 then 4   // ISA bridge
    else if class_ == 0x0C0000 then 5   // IEEE 1394
    else if class_ == 0x080500 then 6   // SD host
    else 7
  }

  function Capacity(kind: nat): (c: nat)
    ensures 4 <= c <= 16
  {
    if kind == 0 then 16 else if kind == 1 || kind == 2 then 8 else 4
  }

  /** How many of `n` indexes the guard `count <= capacity` lets in: one more than fit. */
  function Kept(n: nat, kind: nat): nat
  {
    if n <= Capacity(kind) then n else Capacity(kind) + 1
  }

  /** The entry for function `n`. Base register 0 is never written; the others get 0. */
  function Entry(conf: Config, n: nat, base0: uint32): Device
    requires n < FUNCTIONS
  {
    Device(n / 256, n / 8 % 32, n % 8, conf(Register(n, 0)) % 0x1_0000, ClassOf(conf, n),
           conf(Register(n, 3)) / 0x1_0000 % 0x100, base0, 0, 0, 0, 0, 0)
  }

  /** The present functions below `n`, in order. */
  function Found(conf: Config, n: nat): seq<nat>
  {
    if n == 0 then []
    else Found(conf, n - 1) + if Present(conf, n - 1) then [n - 1] else []
  }

  /** The first 1024 present functions. */
  function Listed(conf: Config): (f: seq<nat>)
    ensures |f| <= DEVICE_MAX
  {
    var f := Found(conf, FUNCTIONS);
    if |f| <= DEVICE_MAX then f else f[..DEVICE_MAX]
  }

  /** The indexes into `found` of the functions of one kind, in order. */
  function OfKind(conf: Config, found: seq<nat>, kind: nat): seq<nat>
  {
    if found == [] then []
    else
      var last := |found| - 1;
      OfKind(conf, found[..last], kind) + if KindOf(ClassOf(conf, found[last])) == kind then [last] else []
  }

  ghost predicate Increasing(s: seq<nat>)
  {
    forall i, j :: 0 <= i < j < |s| ==> s[i] < s[j]
  }

  lemma IncreasingAppend(s: seq<nat>, x: nat)
    requires Increasing(s) && forall y: nat :: y in s ==> y < x
    ensures Increasing(s + [x]) && forall y: nat :: y in s + [x] <==> y in s || y == x
  {
    forall i, j | 0 <= i < j < |s + [x]|
      ensures (s + [x])[i] < (s + [x])[j]
    {
      assert s[i] in s;
    }
  }

  /** `Found` is exactly the present functions, in increasing order. */
  lemma {:induction false} FoundIsExact(conf: Config, n: nat)
    ensures Increasing(Found(conf, n))
    ensures forall x: nat :: x in Found(conf, n) <==> x < n && Present(conf, x)
  {
    hide Present, Increasing;
    if n == 0 {
      assert Increasing([]) by {
        NothingIncreases();
      }
    } else {
      FoundIsExact(conf, n - 1);
      IncreasingAppend(Found(conf, n - 1), n - 1);
      assert Found(conf, n - 1) + [] == Found(conf, n - 1);
    }
  }

  lemma NothingIncreases()
    ensures Increasing([])
  {}

  lemma {:induction false} FoundGrows(conf: Config, m: nat, n: nat)
    requires m <= n
    ensures Found(conf, m) <= Found(conf, n)
  {
    if m < n {
      FoundGrows(conf, m, n - 1);
    }
  }

  lemma AddressOrder(m: nat, n: nat)
    requires m < n < FUNCTIONS
    ensures Register(m, 0) < Register(n, 0)
  {
    RegisterIsLinear(m, 0);
    RegisterIsLinear(n, 0);
  }

  lemma ListedInAddressOrder(conf: Config)
    ensures var f := Listed(conf);
            && (forall i :: 0 <= i < |f| ==> f[i] < FUNCTIONS && Present(conf, f[i]))
            && Increasing(f)
            && (forall i, j :: 0 <= i < j < |f| ==> Register(f[i], 0) < Register(f[j], 0))
  {
    hide Found, Present, Register;
    var all, f := Found(conf, FUNCTIONS), Listed(conf);
    FoundIsExact(conf, FUNCTIONS);
    assert forall i :: 0 <= i < |f| ==> f[i] == all[i] && all[i] in all;
    forall i, j | 0 <= i < j < |f|
      ensures Register(f[i], 0) < Register(f[j], 0)
    {
      AddressOrder(f[i], f[j]);
    }
  }

  /** The device table leaves a present function out only when it is full, and then none
      that comes before a listed one. */
  lemma ListedLeavesOutOnlyLater(conf: Config, x: nat)
    requires x < FUNCTIONS && Present(conf, x) && x !in Listed(conf)
    ensures |Listed(conf)| == 1024
    ensures forall i :: 0 <= i < 1024 ==> Listed(conf)[i] < x
  {
    hide Found, Present;
    var all, f := Found(conf, FUNCTIONS), Listed(conf);
    FoundIsExact(conf, FUNCTIONS);
    assert x in all;
    assert forall i :: 0 <= i < |f| ==> all[i] == f[i] && f[i] in f;
    var j :| 0 <= j < |all| && all[j] == x;
  }

  /** A class list is exactly the increasing indexes of its kind. */
  lemma {:induction false} OfKindIsExact(conf: Config, found: seq<nat>, kind: nat)
    ensures var l := OfKind(conf, found, kind);
            && Increasing(l) && |l| <= |found|
            && (forall a: nat :: a in l <==> a < |found| && KindOf(ClassOf(conf, found[a])) == kind)
  {
    hide KindOf, ClassOf, Increasing;
    if found == [] {
      NothingIncreases();
    } else {
      var last := |found| - 1;
      OfKindIsExact(conf, found[..last], kind);
      var front := OfKind(conf, found[..last], kind);
      IncreasingAppend(front, last);
      assert front + [] == front;
    }
  }

  // ---------- what an entry and a list say, in the register layout of PCI ----------

  /** The configuration address of register `reg` of a function: enable bit, bus, device,
      function and register. */
  function RegisterAt(bus: nat, device: nat, fn: nat, reg: nat): nat
  {
    0x8000_0000 + 0x1_0000 * bus + 0x800 * device + 0x100 * fn + 4 * reg
  }

  /** An entry names the function it was read from, and what it holds is what the registers
      of the function it names answer: vendor in register 0, class in the upper 24 bits of
      register 2, header type in bits 16..23 of register 3. */
  lemma EntryNamesItsFunction(conf: Config, n: nat, base0: uint32)
    requires n < FUNCTIONS
    ensures var e := Entry(conf, n, base0);
            && e.bus < 256 && e.device < 32 && e.function_ < 8
            && 256 * e.bus + 8 * e.device + e.function_ == n
            && e.vendorId == conf(RegisterAt(e.bus, e.device, e.function_, 0)) % 0x1_0000
            && e.classCode == conf(RegisterAt(e.bus, e.device, e.function_, 2)) / 0x100
            && e.headerType == conf(RegisterAt(e.bus, e.device, e.function_, 3)) / 0x1_0000 % 0x100
            && e.base0 == base0 && e.base1 == e.base2 == e.base3 == e.base4 == e.base5 == 0
  {
    hide Register, ClassOf;
    assert n == n / 256 * 256 + n / 8 % 32 * 8 + n % 8;
    var bus, dev, fn := n / 256, n / 8 % 32, n % 8;
    RegisterIsLinear(n, 0);
    RegisterIsLinear(n, 2);
    RegisterIsLinear(n, 3);
    ClassRead(conf, n);
    assert forall reg: nat :: RegisterAt(bus, dev, fn, reg) == 0x8000_0000 + 0x100 * n + 4 * reg;
  }

  lemma ClassRead(conf: Config, n: nat)
    ensures ClassOf(conf, n) == conf(Register(n, 2)) / 0x100
  {}

  /** Class and subclass of function `n`: the upper half of its register 2. */
  function ClassAt(conf: Config, n: nat): nat
  {
    conf(0x8000_0000 + 0x100 * n + 8) / 0x1_0000
  }

  /** Which class, by PCI's own codes, each list is for, and how many cells it has. */
  lemma ListsByClassCode(conf: Config, n: nat)
    requires n < FUNCTIONS
    ensures var kind, code := KindOf(ClassOf(conf, n)), ClassAt(conf, n);
            && (kind == 0 <==> code == 0x0604) && (kind == 1 <==> code == 0x0C03) && (kind == 2 <==> code == 0x0106)
            && (kind == 3 <==> code == 0x0101) && (kind == 4 <==> code == 0x0601)
            && (kind == 5 <==> code == 0x0C00) && (kind == 6 <==> code == 0x0805)
    ensures Capacity(0) == 16 && Capacity(1) == Capacity(2) == 8
    ensures Capacity(3) == Capacity(4) == Capacity(5) == Capacity(6) == 4
  {
    RegisterIsLinear(n, 2);
    var code := ClassAt(conf, n);
    assert ClassOf(conf, n) / 0x100 == code;
  }

  // ---------- a configuration with many bridges ----------

  /** `count` functions from the first address on, each a PCI bridge. */
  function Bridges(count: nat): Config
  {
    (address: nat) => if address < 0x8000_0000 + 0x100 * count then 0x0604_0000 else 0xFFFF_FFFF
  }

  function UpTo(n: nat): seq<nat>
  {
    seq(n, i => i)
  }

  lemma BridgeRead(count: nat, n: nat)
    requires n < FUNCTIONS
    ensures Present(Bridges(count), n) <==> n < count
    ensures n < count ==> KindOf(ClassOf(Bridges(count), n)) == 0
  {
    RegisterIsLinear(n, 0);
    RegisterIsLinear(n, 2);
  }

  lemma {:induction false} BridgesFound(count: nat, n: nat)
    requires n <= FUNCTIONS
    ensures Found(Bridges(count), n) == UpTo(if n < count then n else count)
  {
    hide Present;
    if n > 0 {
      BridgesFound(count, n - 1);
      BridgeRead(count, n - 1);
    }
  }

  lemma {:induction false} BridgesOfKind(count: nat, n: nat)
    requires n <= count && n <= FUNCTIONS
    ensures OfKind(Bridges(count), UpTo(n), 0) == UpTo(n)
  {
    hide KindOf, ClassOf;
    if n > 0 {
      BridgesOfKind(count, n - 1);
      BridgeRead(count, n - 1);
      assert UpTo(n)[..n - 1] == UpTo(n - 1);
    }
  }

  /** With 17 bridges the bridge list gets 17 entries for its 16 cells. */
  lemma SeventeenBridges()
    ensures OfKind(Bridges(17), Listed(Bridges(17)), 0) == UpTo(17)
    ensures |UpTo(17)| > Capacity(0) && Kept(17, 0) == 17
  {
    hide Found, OfKind;
    BridgesFound(17, FUNCTIONS);
    BridgesOfKind(17, 17);
  }
}
