/** The text console: `printf`, `println` and the drawing and scrolling behind them. */
module Console {
  import opened CTypes
  import opened ConsolePage
  import opened ConsoleSpec

  const VIDEO_BASE: nat := 0xB_8000

  /** The longest text whose addresses do not wrap around, wherever it starts. */
  const LONGEST: nat := 0x7FF0_0000

  /** The cell named by a packed position: row in bits 15..8, column in bits 7..0. */
  function CellOf(edi: uint32): nat
  {
    COLUMNS * (edi / 0x100 % 0x100) + edi % 0x100
  }

  /** The 80 dashes of the line drawn by `shell_init`. */
  function Dashes(): seq<byte>
  {
    seq(80, _ => DASH)
  }

  lemma DashesDrawn(vm: VideoMemory, color: byte)
    ensures DashLine(Drawn(vm, ROWS * COLUMNS, Dashes(), color))
  {}

  lemma CellOfPacked(row: uint8, col: uint8)
    ensures CellOf(0x100 * row + col) == COLUMNS * row + col
  {}

  lemma HighLow(v: nat)
    ensures var o := v % UINT32_RANGE; 0x100 * (o / 0x100 % 0x100) + o % 0x100 == v % 0x1_0000
  {
    var o := v % UINT32_RANGE;
    assert v == v / UINT32_RANGE * UINT32_RANGE + o;
    assert o % 0x1_0000 == v % 0x1_0000;
    assert o / 0x100 == o / 0x1_0000 * 0x100 + o / 0x100 % 0x100;
  }

  class Console {
    const vm: array<byte>         // video memory from 0xB8000
    var vmx: uint8
    var vmy: uint8
    var color: byte
    var cursorHigh: uint8         // CRT controller registers 0x0E and 0x0F
    var cursorLow: uint8

    ghost predicate Valid()
      reads this
    {
      vm.Length == VM_SIZE && vmx < COLUMNS && vmy <= ROWS
    }

    ghost function State(): Screen
      reads this, vm
      requires vm.Length == VM_SIZE
    {
      Screen(vm[..], vmx, vmy, 0x100 * cursorHigh + cursorLow)
    }

    /** The screen holds whatever video memory held; `vmx` and `vmy` start at zero. */
    constructor (memory: array<byte>)
      requires memory.Length == VM_SIZE
      ensures vm == memory && Valid() && vmx == vmy == 0 && color == 0x07
    {
      vm, vmx, vmy, color := memory, 0, 0, 0x07;
      cursorHigh, cursorLow := 0, 0;
    }

    method CursorSet(x: uint32, y: uint32)
      modifies this`cursorHigh, this`cursorLow
      ensures 0x100 * cursorHigh + cursorLow == (y * COLUMNS + x) % 0x1_0000
    {
      var offset: uint32 := (y * COLUMNS + x) % UINT32_RANGE;
      HighLow(y * COLUMNS + x);
      cursorHigh, cursorLow := offset / 0x100 % 0x100, offset % 0x100;
    }

    /** One 16-bit store: the character in the low byte, the colour in the high byte. */
    method PutCell(at: nat, c: byte, colorReg: bv32)
      requires at + 1 < vm.Length
      modifies vm
      ensures vm[..] == old(vm[..])[at := c][at + 1 := (colorReg & 0xFF) as byte]
    {
      var word := ((colorReg & 0xFF) as bv16 << 8) | c as bv16;
      vm[at], vm[at + 1] := (word & 0xFF) as byte, (word >> 8) as byte;
    }

    /** `edi` packs the starting row (bits 15..8) and column (bits 7..0). */
    method VideoIsrPrintString(source: seq<byte>, edi: uint32, length: uint32, colorReg: bv32)
      requires vm.Length == VM_SIZE && length <= |source|
      requires VIDEO_BASE + 2 * (CellOf(edi) + length) <= UINT32_RANGE
      modifies vm
      ensures vm[..] == Drawn(old(vm[..]), CellOf(edi), source[..length], (colorReg & 0xFF) as byte)
    {
      var base: nat := edi / 0x100 % 0x100 * 0xA0 + edi % 0x100 * 2;
      assert base == 2 * CellOf(edi);
      ghost var attr: byte := (colorReg & 0xFF) as byte;
      DrawnNothing(vm[..], CellOf(edi), attr);
      for i := 0 to length
        invariant vm[..] == Drawn(old(vm[..]), CellOf(edi), source[..i], attr)
      {
        if base + i * 2 < vm.Length {
          PutCell(base + i * 2, source[i], colorReg);
        }
        DrawnOneMore(old(vm[..]), CellOf(edi), source[..i], source[i], attr);
        assert source[..i + 1] == source[..i] + [source[i]];
      }
    }

    /** Overlapping copy, a 32-bit word at a time, then the blank and the dashes. */
    method VmScolling()
      requires vm.Length == VM_SIZE
      modifies vm
      ensures vm[..] == Scrolled(old(vm[..]))
      ensures forall k :: 0 <= k < 22 * 160 ==> vm[k] == old(vm[k + 160])
      ensures forall k :: 22 * 160 <= k < VM_SIZE && (k % 2 == 1 || k >= 24 * 160) ==> vm[k] == old(vm[k])
      ensures forall k :: 22 * 160 <= k < 24 * 160 && k % 2 == 0 ==> vm[k] == if k < 23 * 160 then 0x20 else 0x2D
    {
      for i := 0 to 22 * 160 / 4
        invariant forall k :: 0 <= k < 4 * i ==> vm[k] == old(vm[k + 160])
        invariant forall k :: 4 * i <= k < VM_SIZE ==> vm[k] == old(vm[k])
      {
        vm[i * 4], vm[i * 4 + 1], vm[i * 4 + 2], vm[i * 4 + 3] :=
          vm[160 + i * 4], vm[160 + i * 4 + 1], vm[160 + i * 4 + 2], vm[160 + i * 4 + 3];
      }
      for i := 0 to 80
        invariant forall k :: 0 <= k < 3520 ==> vm[k] == old(vm[k + 160])
        invariant forall k :: 3520 <= k < 3520 + 2 * i && k % 2 == 0 ==> vm[k] == BLANK
        invariant forall k :: 3680 <= k < 3680 + 2 * i && k % 2 == 0 ==> vm[k] == DASH
        invariant forall k :: 3520 <= k < VM_SIZE && k % 2 == 1 ==> vm[k] == old(vm[k])
        invariant forall k :: 3520 + 2 * i <= k < 3680 || 3680 + 2 * i <= k < VM_SIZE ==> vm[k] == old(vm[k])
      {
        vm[0xDC0 + i * 2] := BLANK;
        vm[0xE60 + i * 2] := DASH;
      }
    }

    /** `int $0x41` with code 0x81; `n` counts the scrolls since `vm` held `was`. */
    method AsmScolling(ghost was: VideoMemory, ghost n: nat)
      requires vm.Length == VM_SIZE && vm[..] == ScrolledTimes(was, n)
      modifies vm
      ensures vm[..] == ScrolledTimes(was, n + 1)
    {
      hide Scrolled;
      VmScolling();
    }

    method SetCursor(x: uint8, y: uint8)
      modifies this`vmx, this`vmy, this`cursorHigh, this`cursorLow
      ensures vmx == x && vmy == y && 0x100 * cursorHigh + cursorLow == COLUMNS * y + x
    {
      vmx, vmy := x, y;
      CursorSet(x, y);
    }

    /** The first loop of `test_scolling`: scrolls until the cursor is in rows 0..22. */
    method BackIntoRows()
      requires vm.Length == VM_SIZE
      modifies this`vmy, vm
      ensures vmy == Min(old(vmy), ROWS - 1)
      ensures vm[..] == ScrolledTimes(old(vm[..]), old(vmy) - vmy)
    {
      hide Scrolled;
      ghost var scrolls: nat := 0;
      while vmy >= 23
        invariant scrolls + vmy == old(vmy)
        invariant scrolls == 0 || vmy >= 22
        invariant vm[..] == ScrolledTimes(old(vm[..]), scrolls)
      {
        vmy := vmy - 1;
        AsmScolling(old(vm[..]), scrolls);
        scrolls := scrolls + 1;
      }
    }

    /** The second loop of `test_scolling`: takes whole rows off `total`, scrolling for each
        row past the last and counting `vmy` down (8 bits) as it does. */
    method WrapRows(total: uint32, ghost was: VideoMemory, ghost before: nat)
      returns (finalVmx: uint32, testVmy: uint32)
      requires vm.Length == VM_SIZE && vmy < ROWS && vm[..] == ScrolledTimes(was, before)
      modifies this`vmy, vm
      ensures finalVmx == total % COLUMNS
      ensures var w := AfterWraps(old(vmy), total / COLUMNS);
              && testVmy == w.testVmy && vmy == w.vmy
              && vm[..] == ScrolledTimes(was, before + w.scrolls)
    {
      hide Scrolled;
      finalVmx, testVmy := total, vmy;
      ghost var row, wraps: nat, scrolls: nat := vmy, 0, 0;
      while finalVmx >= 80
        invariant total == finalVmx + 80 * wraps && testVmy < ROWS
        invariant Wrapped(testVmy, vmy, scrolls) == AfterWraps(row, wraps)
        invariant vm[..] == ScrolledTimes(was, before + scrolls)
      {
        testVmy := testVmy + 1;
        if testVmy >= 23 {
          vmy := (vmy - 1) % 0x100;
          testVmy := testVmy - 1;
          AsmScolling(was, before + scrolls);
          scrolls := scrolls + 1;
        }
        finalVmx := finalVmx - 80;
        wraps := wraps + 1;
      }
      assert wraps == total / COLUMNS;
    }

    /** Makes room for `len` characters, moves the cursor past them, and returns where they
        start as (row << 8) | column. Stated for every length and every cursor. */
    method TestScolling(len: uint32) returns (start: uint32)
      requires vm.Length == VM_SIZE
      modifies this`vmx, this`vmy, this`cursorHigh, this`cursorLow, vm
      ensures State() == WithRoom(old(State()), len)
      ensures CellOf(start) == StartCell(old(State()), len)
    {
      hide Scrolled, Wrap8;
      BackIntoRows();
      PlanByWraps(old(vmx), old(vmy), len);
      var finalVmx, testVmy := WrapRows((vmx + len) % UINT32_RANGE, old(vm[..]), old(vmy) - vmy);
      var rawVmx: uint32, rawVmy: uint32 := vmx, vmy;
      SetCursor(finalVmx, testVmy);
      start := rawVmy * 0x100 + rawVmx;
      CellOfPacked(rawVmy, rawVmx);
    }

    /** `printf`: the NUL-terminated string `s` in the current colour. */
    method Printf(s: seq<byte>)
      requires Valid() && Terminated(s, 0) && |CString(s, 0)| <= LONGEST
      modifies this`vmx, this`vmy, this`cursorHigh, this`cursorLow, vm
      ensures Valid()
      ensures State() == Printed(old(State()), CString(s, 0), color)
    {
      var len := StrLen(s);
      var start := TestScolling(len);
      VideoIsrPrintString(s, start, len, color as bv32);
    }

    /** `println`: as `Printf`, then to the start of the next row, which may be row 23. */
    method Println(s: seq<byte>)
      requires Valid() && Terminated(s, 0) && |CString(s, 0)| <= LONGEST
      modifies this`vmx, this`vmy, this`cursorHigh, this`cursorLow, vm
      ensures Valid()
      ensures State() == PrintedLine(old(State()), CString(s, 0), color)
    {
      var len := StrLen(s);
      var start := TestScolling(len);
      VideoIsrPrintString(s, start, len, color as bv32);
      vmx := 0;
      vmy := vmy + 1;
      SetCursor(vmx, vmy);
    }

    /** `shell_init`: the dash line in row 23, then the welcome text in colour 0x70. */
    method ShellInit(welcome: seq<byte>)
      requires Valid() && Terminated(welcome, 0) && Fits(vmx, |CString(welcome, 0)|)
      modifies this`vmx, this`vmy, this`color, this`cursorHigh, this`cursorLow, vm
      ensures Valid() && color == 0x07
      ensures var dashed := old(State()).(vm := Drawn(old(vm[..]), ROWS * COLUMNS, Dashes(), old(color)));
              && State() == PrintedLine(dashed, CString(welcome, 0), 0x70)
              && DashLine(vm[..])
    {
      hide PlanFor, Drawn, Scrolled, Printed, DashLine;
      VideoIsrPrintString(Dashes(), 0x1700, 80, color as bv32);
      assert Dashes()[..80] == Dashes() && CellOf(0x1700) == ROWS * COLUMNS;
      ghost var dashed := State();
      DashesDrawn(old(vm[..]), color);
      color := 0x70;
      Println(welcome);
      color := 0x07;
      CallKeepsStatusRows(dashed, PrintLine(CString(welcome, 0), 0x70));
    }
  }
}
