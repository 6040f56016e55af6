/** What the console routines do to the screen, stated on values.

    The screen is 25 rows of 80 cells, two bytes a cell (character, attribute). Rows 0..22
    scroll; row 23 is the dash line. `Console` is proved against these functions. */
module ConsoleSpec {
  import opened CTypes

  const COLUMNS: nat := 80
  const ROWS: nat := 23                 // the rows that scroll
  const VM_SIZE: nat := 4000

  const BLANK: byte := 0x20
  const DASH: byte := 0x2D

  type VideoMemory = vm: seq<byte> | |vm| == VM_SIZE witness seq(VM_SIZE, _ => 0)

  datatype Screen = Screen(vm: VideoMemory, vmx: uint8, vmy: uint8, cursor: nat)

  function Max(a: int, b: int): int { if a < b then b else a }
  function Min(a: int, b: int): int { if a < b then a else b }

  /** One scroll: rows 1..22 move up, row 22 is blanked and row 23 dashed (characters only). */
  function Scrolled(vm: VideoMemory): VideoMemory
  {
    seq(VM_SIZE, k requires 0 <= k < VM_SIZE =>
      if k < 3520 then vm[k + 160]
      else if k % 2 == 1 || k >= 3840 then vm[k]
      else if k < 3680 then BLANK
      else DASH)
  }

  function ScrolledTimes(vm: VideoMemory, n: nat): VideoMemory
  {
    if n == 0 then vm else Scrolled(ScrolledTimes(vm, n - 1))
  }

  /** `n` scrolls, told from the bytes before them: rows 0..22 move up `n` rows with their
      attributes; a row that comes in is blank and has the attributes row 22 had. */
  lemma {:induction false} ScrollsByRow(vm: VideoMemory, n: nat, row: nat, byteOfRow: nat)
    requires row < 23 && byteOfRow < 160
    ensures ScrolledTimes(vm, n)[160 * row + byteOfRow]
         == if row + n < 23 then vm[160 * (row + n) + byteOfRow]
            else if byteOfRow % 2 == 0 && n > 0 then 0x20
            else vm[160 * 22 + byteOfRow]
  {
    if n != 0 {
      if row < 22 {
        ScrollsByRow(vm, n - 1, row + 1, byteOfRow);
      } else {
        ScrollsByRow(vm, n - 1, row, byteOfRow);
      }
    }
  }

  /** `text` in colour `color`, drawn linearly from cell `at`; what lies past the last cell
      is not on the screen. */
  function Drawn(vm: VideoMemory, at: nat, text: seq<byte>, color: byte): VideoMemory
  {
    seq(VM_SIZE, k requires 0 <= k < VM_SIZE =>
      if k < 2 * at || 2 * (at + |text|) <= k then vm[k]
      else if k % 2 == 1 then color
      else text[k / 2 - at])
  }

  lemma DrawnNothing(vm: VideoMemory, at: nat, color: byte)
    ensures Drawn(vm, at, [], color) == vm
  {}

  lemma DrawnBelow(vm: VideoMemory, at: nat, text: seq<byte>, color: byte)
    requires at >= VM_SIZE / 2
    ensures Drawn(vm, at, text, color) == vm
  {}

  lemma DrawnOneMore(vm: VideoMemory, at: nat, text: seq<byte>, c: byte, color: byte)
    ensures var k := 2 * (at + |text|);
            Drawn(vm, at, text + [c], color)
            == if k < VM_SIZE then Drawn(vm, at, text, color)[k := c][k + 1 := color] else Drawn(vm, at, text, color)
  {}

  /** What `test_scolling` decides: how often it scrolls, the row the text then starts in,
      and where the cursor ends. `startRow` wraps as the 8-bit `vmy` does. */
  datatype Plan = Plan(scrolls: nat, startRow: uint8, endX: uint8, endY: uint8)

  function Wrap8(n: int): uint8 { n % 0x100 }

  lemma Wrap8Down(n: int)
    ensures (Wrap8(n) - 1) % 0x100 == Wrap8(n - 1)
  {
    var q, r := n / 0x100, n % 0x100;
    if r == 0 {
      RemainderIs(n - 1, q - 1, 0xFF);
    } else {
      RemainderIs(n - 1, q, r - 1);
    }
  }

  lemma RemainderIs(n: int, q: int, r: nat)
    requires n == 0x100 * q + r && r < 0x100
    ensures n % 0x100 == r
  {}

  function PlanFor(vmx: uint8, vmy: uint8, len: uint32): Plan
  {
    var row := Min(vmy, ROWS - 1);
    var total := (vmx + len) % UINT32_RANGE;
    var over := Max(0, row + total / COLUMNS - (ROWS - 1));
    Plan(vmy - row + over, Wrap8(row - over), total % COLUMNS,
         Min(row + total / COLUMNS, ROWS - 1))
  }

  /** The state of the second loop of `test_scolling` after `wraps` turns from row `row`. */
  datatype Wrapped = Wrapped(testVmy: uint8, vmy: uint8, scrolls: nat)

  function AfterWraps(row: uint8, wraps: nat): Wrapped
    requires row < ROWS
  {
    if wraps == 0 then Wrapped(row, row, 0)
    else
      var w := AfterWraps(row, wraps - 1);
      if w.testVmy + 1 >= ROWS then Wrapped(w.testVmy, (w.vmy - 1) % 0x100, w.scrolls + 1)
      else Wrapped(w.testVmy + 1, w.vmy, w.scrolls)
  }

  lemma {:induction false} WrapsReach(row: uint8, wraps: nat)
    requires row < ROWS
    ensures var over := Max(0, row + wraps - (ROWS - 1));
            AfterWraps(row, wraps) == Wrapped(Min(row + wraps, ROWS - 1), Wrap8(row - over), over)
  {
    if wraps != 0 {
      WrapsReach(row, wraps - 1);
      Wrap8Down(row - Max(0, row + (wraps - 1) - (ROWS - 1)));
    }
  }

  /** The plan is what the two loops of `test_scolling` reach. */
  lemma PlanByWraps(vmx: uint8, vmy: uint8, len: uint32)
    ensures var row := Min(vmy, ROWS - 1);
            var total := (vmx + len) % UINT32_RANGE;
            var w := AfterWraps(row, total / COLUMNS);
            PlanFor(vmx, vmy, len) == Plan(vmy - row + w.scrolls, w.vmy, total % COLUMNS, w.testVmy)
  {
    WrapsReach(Min(vmy, ROWS - 1), (vmx + len) % UINT32_RANGE / COLUMNS);
  }

  /** The bound under which a call stays on the screen. */
  predicate Fits(vmx: uint8, len: nat)
  {
    vmx + len < ROWS * COLUMNS
  }

  /** The screen once room is made for `len` characters. */
  function WithRoom(s: Screen, len: uint32): Screen
  {
    var p := PlanFor(s.vmx, s.vmy, len);
    Screen(ScrolledTimes(s.vm, p.scrolls), p.endX, p.endY, COLUMNS * p.endY + p.endX)
  }

  /** The cell in which `len` characters printed on `s` start. */
  function StartCell(s: Screen, len: uint32): nat
  {
    COLUMNS * PlanFor(s.vmx, s.vmy, len).startRow + s.vmx
  }

  function Printed(s: Screen, text: seq<byte>, color: byte): Screen
    requires |text| < UINT32_RANGE
  {
    WithRoom(s, |text|).(vm := Drawn(WithRoom(s, |text|).vm, StartCell(s, |text|), text, color))
  }

  function PrintedLine(s: Screen, text: seq<byte>, color: byte): Screen
    requires |text| < UINT32_RANGE
  {
    var t := Printed(s, text, color);
    t.(vmx := 0, vmy := t.vmy + 1, cursor := COLUMNS * (t.vmy + 1))
  }

  /** Within the bound the linear position is conserved and the text ends in rows 0..22. */
  lemma PlanStays(vmx: uint8, vmy: uint8, len: nat)
    requires Fits(vmx, len)
    ensures var p := PlanFor(vmx, vmy, len);
            && COLUMNS * p.startRow + vmx + len == COLUMNS * p.endY + p.endX
            && p.startRow + p.scrolls == vmy
  {
    assert (vmx + len) / COLUMNS <= ROWS - 1;
  }

  /** The bound is exact: beyond it `vmy` underflows, the position is not conserved, and
      the text runs past row 22. */
  lemma PlanStaysIffFits(vmx: uint8, vmy: uint8, len: uint32)
    ensures var p := PlanFor(vmx, vmy, len);
            && (Fits(vmx, len) <==> COLUMNS * p.startRow + vmx + len <= ROWS * COLUMNS)
            && (Fits(vmx, len) <==> COLUMNS * p.startRow + vmx + len == COLUMNS * p.endY + p.endX)
            && (vmx + len < UINT32_RANGE ==> (Fits(vmx, len) <==> p.startRow + p.scrolls == vmy))
  {
    hide PlanFor;
    if Fits(vmx, len) {
      PlanStays(vmx, vmy, len);
      PlanEndsInRows(vmx, vmy, len);
    } else {
      PlanEndsInRows(vmx, vmy, len);
      if vmx + len < UINT32_RANGE {
        PlanOfOverlong(vmx, vmy, len);
      }
    }
  }

  lemma PlanEndsInRows(vmx: uint8, vmy: uint8, len: uint32)
    ensures var p := PlanFor(vmx, vmy, len); COLUMNS * p.endY + p.endX < ROWS * COLUMNS
  {}

  lemma PlanOfOverlong(vmx: uint8, vmy: uint8, len: uint32)
    requires !Fits(vmx, len) && vmx + len < UINT32_RANGE
    ensures var p, wraps := PlanFor(vmx, vmy, len), (vmx + len) / COLUMNS;
            && wraps >= ROWS && p.startRow == Wrap8(ROWS - 1 - wraps)
            && p.scrolls == vmy + wraps - (ROWS - 1) && p.startRow + p.scrolls > vmy
  {
    var wraps := (vmx + len) / COLUMNS;
    assert wraps >= ROWS;
    hide Wrap8;
    assert PlanFor(vmx, vmy, len).startRow == Wrap8(ROWS - 1 - wraps);
  }

  /** A text of 1840 to 20319 places, counted from its column, only scrolls: `vmy` has wrapped
      to a row below the screen, where all of it is drawn. */
  lemma OverlongTextIsLost(s: Screen, text: seq<byte>, color: byte)
    requires !Fits(s.vmx, |text|) && s.vmx + |text| < 254 * COLUMNS
    ensures Printed(s, text, color).vm == ScrolledTimes(s.vm, s.vmy + (s.vmx + |text|) / COLUMNS - (ROWS - 1))
  {
    hide PlanFor, Scrolled, ScrolledTimes, Drawn;
    PlanOfOverlong(s.vmx, s.vmy, |text|);
    var wraps := (s.vmx + |text|) / COLUMNS;
    RemainderIs(ROWS - 1 - wraps, -1, 0x100 + ROWS - 1 - wraps);
    DrawnBelow(WithRoom(s, |text|).vm, StartCell(s, |text|), text, color);
  }
}
