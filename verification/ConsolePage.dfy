/** The ideal console: an unbounded 80-column page on which text is appended linearly, seen
    through a 23-row window. Every run of `printf` and `println` shows exactly that window. */
module ConsolePage {
  import opened CTypes
  import opened ConsoleSpec

  /** `Gap` is a cell that `println` skipped over. */
  datatype Cell = Glyph(ch: byte, color: byte) | Gap

  /** `text` runs from the top left of the page to the cursor; `top` is the first page row in
      the window; `behind` is what video memory held at the start. */
  datatype Page = Page(behind: VideoMemory, text: seq<Cell>, top: nat)

  datatype Call = Print(text: seq<byte>, color: byte) | PrintLine(text: seq<byte>, color: byte)

  function Glyphs(s: seq<byte>, color: byte): seq<Cell>
  {
    seq(|s|, i requires 0 <= i < |s| => Glyph(s[i], color))
  }

  /** Appends `s` and moves the window down only as far as the end of the text needs. */
  function Append(pg: Page, s: seq<byte>, color: byte): Page
  {
    var text := pg.text + Glyphs(s, color);
    Page(pg.behind, text, Max(pg.top, |text| / COLUMNS - (ROWS - 1)))
  }

  /** Moves to the start of the next row: row floor(position / 80) + 1. */
  function EndLine(pg: Page): Page
  {
    pg.(text := pg.text + seq(COLUMNS - |pg.text| % COLUMNS, _ => Gap))
  }

  function DoIdeal(pg: Page, call: Call): Page
  {
    var appended := Append(pg, call.text, call.color);
    if call.Print? then appended else EndLine(appended)
  }

  function IdealRun(pg: Page, calls: seq<Call>): Page
  {
    if calls == [] then pg
    else DoIdeal(IdealRun(pg, calls[..|calls| - 1]), calls[|calls| - 1])
  }

  /** The character the page holds at linear position `p`. */
  function CharAt(pg: Page, p: nat): byte
  {
    if p < |pg.text| && pg.text[p].Glyph? then pg.text[p].ch
    else if p < ROWS * COLUMNS then pg.behind[2 * p]
    else BLANK
  }

  /** Window cell `c` shows its page cell: the character, and the colour of a printed one. */
  ghost predicate CellShown(vm: VideoMemory, pg: Page, c: nat)
    requires c < ROWS * COLUMNS
  {
    var p := COLUMNS * pg.top + c;
    && vm[2 * c] == CharAt(pg, p)
    && (p < |pg.text| && pg.text[p].Glyph? ==> vm[2 * c + 1] == pg.text[p].color)
  }

  /** Rows 0..22 of `vm` are the page's window. */
  ghost predicate WindowShown(vm: VideoMemory, pg: Page)
  {
    forall c :: 0 <= c < ROWS * COLUMNS ==> CellShown(vm, pg, c)
  }

  /** The screen is the page's window and its cursor the page's end. */
  ghost predicate Shows(s: Screen, pg: Page)
  {
    && WindowShown(s.vm, pg)
    && s.vmx < COLUMNS && s.vmy <= ROWS && (s.vmy == ROWS ==> s.vmx == 0)
    && |pg.text| == COLUMNS * (pg.top + s.vmy) + s.vmx
  }

  function Do(s: Screen, call: Call): Screen
    requires |call.text| < UINT32_RANGE
  {
    if call.Print? then Printed(s, call.text, call.color) else PrintedLine(s, call.text, call.color)
  }

  predicate AllFit(s: Screen, calls: seq<Call>)
    decreases |calls|, 0
  {
    calls == [] ||
    var before := calls[..|calls| - 1];
    AllFit(s, before) && Fits(Run(s, before).vmx, |calls[|calls| - 1].text|)
  }

  function Run(s: Screen, calls: seq<Call>): Screen
    requires AllFit(s, calls)
    decreases |calls|, 1
  {
    if calls == [] then s else Do(Run(s, calls[..|calls| - 1]), calls[|calls| - 1])
  }

  /** How many times a run calls `vm_scolling`. */
  function ScrollsOf(s: Screen, calls: seq<Call>): nat
    requires AllFit(s, calls)
  {
    if calls == [] then 0
    else
      var before := calls[..|calls| - 1];
      var t := Run(s, before);
      ScrollsOf(s, before) + PlanFor(t.vmx, t.vmy, |calls[|calls| - 1].text|).scrolls
  }

  // ---------- one call ----------

  lemma ScrollMovesWindow(vm: VideoMemory, pg: Page)
    requires WindowShown(vm, pg) && |pg.text| <= COLUMNS * (pg.top + ROWS)
    ensures WindowShown(Scrolled(vm), pg.(top := pg.top + 1))
  {
    var moved := pg.(top := pg.top + 1);
    forall c | 0 <= c < ROWS * COLUMNS
      ensures CellShown(Scrolled(vm), moved, c)
    {
      var p := COLUMNS * moved.top + c;
      if c < (ROWS - 1) * COLUMNS {
        assert p == COLUMNS * pg.top + (c + COLUMNS);
        assert CellShown(vm, pg, c + COLUMNS);
        assert CharAt(moved, p) == CharAt(pg, p);
        assert Scrolled(vm)[2 * c] == vm[2 * (c + COLUMNS)];
        assert Scrolled(vm)[2 * c + 1] == vm[2 * (c + COLUMNS) + 1];
      } else {
        assert Scrolled(vm)[2 * c] == BLANK;
      }
    }
  }

  lemma {:induction false} ScrollsMoveWindow(vm: VideoMemory, pg: Page, n: nat)
    requires WindowShown(vm, pg) && |pg.text| <= COLUMNS * (pg.top + ROWS)
    ensures WindowShown(ScrolledTimes(vm, n), pg.(top := pg.top + n))
  {
    if n != 0 {
      ScrollsMoveWindow(vm, pg, n - 1);
      ScrollMovesWindow(ScrolledTimes(vm, n - 1), pg.(top := pg.top + (n - 1)));
    }
  }

  lemma DrawAppends(vm: VideoMemory, pg: Page, s: seq<byte>, color: byte)
    requires WindowShown(vm, pg) && COLUMNS * pg.top <= |pg.text|
    requires |pg.text| + |s| <= COLUMNS * (pg.top + ROWS)
    ensures WindowShown(Drawn(vm, |pg.text| - COLUMNS * pg.top, s, color),
                        pg.(text := pg.text + Glyphs(s, color)))
  {
    var at := |pg.text| - COLUMNS * pg.top;
    var after := pg.(text := pg.text + Glyphs(s, color));
    forall c | 0 <= c < ROWS * COLUMNS
      ensures CellShown(Drawn(vm, at, s, color), after, c)
    {
      var p := COLUMNS * pg.top + c;
      assert CellShown(vm, pg, c);
      assert 2 * c / 2 == c && (2 * c + 1) / 2 == c;
      if at <= c < at + |s| {
        assert after.text[p] == Glyph(s[c - at], color);
      } else {
        assert CharAt(after, p) == CharAt(pg, p);
      }
    }
  }

  /** The window moves down exactly as often as the code scrolls. */
  lemma WindowFollowsPlan(s: Screen, pg: Page, len: nat)
    requires Shows(s, pg) && Fits(s.vmx, len)
    ensures var p := PlanFor(s.vmx, s.vmy, len);
            && pg.top + p.scrolls == Max(pg.top, (|pg.text| + len) / COLUMNS - (ROWS - 1))
            && |pg.text| + len == COLUMNS * (pg.top + p.scrolls + p.endY) + p.endX
            && StartCell(s, len) == |pg.text| - COLUMNS * (pg.top + p.scrolls)
  {
    PlanStays(s.vmx, s.vmy, len);
    var p := PlanFor(s.vmx, s.vmy, len);
    assert (|pg.text| + len) / COLUMNS == pg.top + p.scrolls + p.endY;
  }

  /** One call: the screen goes on showing the page. */
  lemma CallRefines(s: Screen, pg: Page, call: Call)
    requires Shows(s, pg) && Fits(s.vmx, |call.text|)
    ensures Shows(Do(s, call), DoIdeal(pg, call))
    ensures DoIdeal(pg, call).top == pg.top + PlanFor(s.vmx, s.vmy, |call.text|).scrolls
    ensures Do(s, call).cursor == |DoIdeal(pg, call).text| - COLUMNS * DoIdeal(pg, call).top
  {
    hide Printed, Append, PlanFor, CharAt, CellShown;
    AppendRefines(s, pg, call.text, call.color);
    if call.PrintLine? {
      GapsShowNothing(Printed(s, call.text, call.color).vm, Append(pg, call.text, call.color));
    }
  }

  lemma AppendRefines(s: Screen, pg: Page, text: seq<byte>, color: byte)
    requires Shows(s, pg) && Fits(s.vmx, |text|)
    ensures Shows(Printed(s, text, color), Append(pg, text, color))
    ensures Append(pg, text, color).top == pg.top + PlanFor(s.vmx, s.vmy, |text|).scrolls
    ensures Printed(s, text, color).vmy < ROWS
    ensures Printed(s, text, color).cursor == |Append(pg, text, color).text| - COLUMNS * Append(pg, text, color).top
  {
    hide CharAt, CellShown, Scrolled, ScrolledTimes, Drawn;
    var p := PlanFor(s.vmx, s.vmy, |text|);
    WindowFollowsPlan(s, pg, |text|);
    PlanStaysIffFits(s.vmx, s.vmy, |text|);
    ScrollsMoveWindow(s.vm, pg, p.scrolls);
    var scrolled := pg.(top := pg.top + p.scrolls);
    DrawAppends(WithRoom(s, |text|).vm, scrolled, text, color);
    assert Append(pg, text, color) == scrolled.(text := pg.text + Glyphs(text, color));
  }

  lemma GapsShowNothing(vm: VideoMemory, pg: Page)
    requires WindowShown(vm, pg)
    ensures WindowShown(vm, EndLine(pg))
  {
    var ended := EndLine(pg);
    forall c | 0 <= c < ROWS * COLUMNS
      ensures CellShown(vm, ended, c)
    {
      assert CellShown(vm, pg, c);
      assert CharAt(ended, COLUMNS * pg.top + c) == CharAt(pg, COLUMNS * pg.top + c);
    }
  }

  // ---------- whole runs ----------

  /** Over every run the screen is the ideal page's window. */
  lemma {:induction false} RunRefines(s: Screen, pg: Page, calls: seq<Call>)
    requires Shows(s, pg) && AllFit(s, calls)
    ensures Shows(Run(s, calls), IdealRun(pg, calls))
  {
    hide Do, DoIdeal, Shows, Fits;
    if calls != [] {
      var before := calls[..|calls| - 1];
      RunRefines(s, pg, before);
      CallRefines(Run(s, before), IdealRun(pg, before), calls[|calls| - 1]);
    }
  }

  /** The window starts at the total number of scrolls so far. */
  lemma {:induction false} RunScrollsToWindow(s: Screen, pg: Page, calls: seq<Call>)
    requires Shows(s, pg) && AllFit(s, calls)
    ensures IdealRun(pg, calls).top == pg.top + ScrollsOf(s, calls)
  {
    hide Do, DoIdeal, Shows, Fits, PlanFor;
    if calls != [] {
      var before := calls[..|calls| - 1];
      RunScrollsToWindow(s, pg, before);
      RunRefines(s, pg, before);
      CallRefines(Run(s, before), IdealRun(pg, before), calls[|calls| - 1]);
    }
  }

  /** The hardware cursor is the page's end, seen from the window's start. */
  lemma RunPlacesCursor(s: Screen, pg: Page, calls: seq<Call>)
    requires Shows(s, pg) && AllFit(s, calls) && calls != []
    ensures Run(s, calls).cursor == |IdealRun(pg, calls).text| - COLUMNS * IdealRun(pg, calls).top
  {
    hide Do, DoIdeal, Shows, Fits;
    var before := calls[..|calls| - 1];
    RunRefines(s, pg, before);
    CallRefines(Run(s, before), IdealRun(pg, before), calls[|calls| - 1]);
  }

  /** The bound of every call, told from the ideal page alone. */
  predicate AllFitOnPage(pg: Page, calls: seq<Call>)
  {
    calls == [] ||
    var before := calls[..|calls| - 1];
    AllFitOnPage(pg, before)
    && |IdealRun(pg, before).text| % COLUMNS + |calls[|calls| - 1].text| < ROWS * COLUMNS
  }

  lemma ColumnOfPosition(s: Screen, pg: Page)
    requires Shows(s, pg)
    ensures s.vmx == |pg.text| % COLUMNS
  {}

  lemma {:induction false} FitIsAPropertyOfThePage(s: Screen, pg: Page, calls: seq<Call>)
    requires Shows(s, pg)
    ensures AllFit(s, calls) <==> AllFitOnPage(pg, calls)
  {
    if calls != [] {
      var before := calls[..|calls| - 1];
      FitIsAPropertyOfThePage(s, pg, before);
      if AllFit(s, before) {
        RunRefines(s, pg, before);
        ColumnOfPosition(Run(s, before), IdealRun(pg, before));
      }
    }
  }

  /** The page a screen starts as: nothing is written, up to the cursor. */
  function StartPage(s: Screen): Page
  {
    Page(s.vm, seq(COLUMNS * s.vmy + s.vmx, _ => Gap), 0)
  }

  predicate CursorInside(s: Screen)
  {
    s.vmx < COLUMNS && (s.vmy < ROWS || (s.vmy == ROWS && s.vmx == 0))
  }

  lemma StartShows(s: Screen)
    requires CursorInside(s)
    ensures Shows(s, StartPage(s))
  {
    forall c | 0 <= c < ROWS * COLUMNS
      ensures CellShown(s.vm, StartPage(s), c)
    {
    }
  }

  /** So every run from any screen shows the page it writes. */
  lemma RunFromAnyScreen(s: Screen, calls: seq<Call>)
    requires CursorInside(s) && AllFit(s, calls)
    ensures Shows(Run(s, calls), IdealRun(StartPage(s), calls))
  {
    StartShows(s);
    RunRefines(s, StartPage(s), calls);
  }

  /** Where the text of the last call of a run ends on the page. */
  function LastTextEnd(pg: Page, calls: seq<Call>): nat
    requires calls != []
  {
    |IdealRun(pg, calls[..|calls| - 1]).text| + |calls[|calls| - 1].text|
  }

  /** Scrolling is lazy and exact: the window's last row is the row where the last text ends
      (or the window has not moved), whatever the calls before it were. */
  lemma {:induction false} WindowIsLazy(pg: Page, calls: seq<Call>)
    requires calls != []
    ensures IdealRun(pg, calls).top == Max(pg.top, LastTextEnd(pg, calls) / COLUMNS - (ROWS - 1))
    ensures LastTextEnd(pg, calls) <= |IdealRun(pg, calls).text|
  {
    var before := calls[..|calls| - 1];
    if before != [] {
      WindowIsLazy(pg, before);
      assert LastTextEnd(pg, before) / COLUMNS <= LastTextEnd(pg, calls) / COLUMNS;
    }
  }

  // ---------- attributes ----------

  /** The attribute of page cell `p` after a run that started on `vm`: the colour of the call
      that wrote it; for a cell in a row that scrolled in, else, that of the last row's cell
      in its column before the call that scrolled it in; at the start, that of its place. */
  function AttributeAt(vm: VideoMemory, pg: Page, calls: seq<Call>, p: nat): byte
  {
    if calls == [] then if COLUMNS * pg.top <= p < COLUMNS * (pg.top + ROWS) then vm[2 * (p - COLUMNS * pg.top) + 1] else 0
    else
      var before, call := calls[..|calls| - 1], calls[|calls| - 1];
      var page := IdealRun(pg, before);
      if |page.text| <= p < |page.text| + |call.text| then call.color
      else if p < COLUMNS * (page.top + ROWS) then AttributeAt(vm, pg, before, p)
      else AttributeAt(vm, pg, before, COLUMNS * (page.top + ROWS - 1) + p % COLUMNS)
  }

  lemma CallMovesAttributes(s: Screen, pg: Page, call: Call, c: nat)
    requires Shows(s, pg) && Fits(s.vmx, |call.text|) && c < ROWS * COLUMNS
    ensures var p := COLUMNS * DoIdeal(pg, call).top + c;
            Do(s, call).vm[2 * c + 1]
            == if |pg.text| <= p < |pg.text| + |call.text| then call.color
               else if p < COLUMNS * (pg.top + ROWS) then s.vm[2 * (p - COLUMNS * pg.top) + 1]
               else s.vm[2 * (COLUMNS * (ROWS - 1) + p % COLUMNS) + 1]
  {
    hide Scrolled, ScrolledTimes, PlanFor, CellShown, CharAt, Printed, Do;
    var scrolls := PlanFor(s.vmx, s.vmy, |call.text|).scrolls;
    WindowFollowsPlan(s, pg, |call.text|);
    CallRefines(s, pg, call);
    AttributeAfter(s, call, c);
    ScrolledAttribute(s.vm, scrolls, c);
    SameColumn(pg.top + scrolls, c);
  }

  lemma AttributeAfter(s: Screen, call: Call, c: nat)
    requires |call.text| < UINT32_RANGE && c < ROWS * COLUMNS
    ensures var start := StartCell(s, |call.text|);
            Do(s, call).vm[2 * c + 1] == if start <= c < start + |call.text| then call.color
                                         else ScrolledTimes(s.vm, PlanFor(s.vmx, s.vmy, |call.text|).scrolls)[2 * c + 1]
  {
    hide Scrolled, ScrolledTimes, PlanFor;
  }

  lemma SameColumn(row: nat, c: nat)
    ensures (COLUMNS * row + c) % COLUMNS == c % COLUMNS
  {}

  lemma ScrolledAttribute(vm: VideoMemory, n: nat, c: nat)
    requires c < ROWS * COLUMNS
    ensures ScrolledTimes(vm, n)[2 * c + 1]
         == if c + COLUMNS * n < ROWS * COLUMNS then vm[2 * (c + COLUMNS * n) + 1]
            else vm[2 * (COLUMNS * (ROWS - 1) + c % COLUMNS) + 1]
  {
    hide Scrolled, ScrolledTimes;
    ScrollsByRow(vm, n, c / COLUMNS, 2 * (c % COLUMNS) + 1);
    assert 160 * (c / COLUMNS) + (2 * (c % COLUMNS) + 1) == 2 * c + 1;
  }

  /** Over every run the attributes of rows 0..22 are those of the page cells in the window. */
  lemma {:induction false} RunKeepsAttributes(s: Screen, pg: Page, calls: seq<Call>, c: nat)
    requires Shows(s, pg) && AllFit(s, calls) && c < ROWS * COLUMNS
    ensures Run(s, calls).vm[2 * c + 1] == AttributeAt(s.vm, pg, calls, COLUMNS * IdealRun(pg, calls).top + c)
  {
    hide Do, DoIdeal, Shows, Fits;
    if calls != [] {
      var before, call := calls[..|calls| - 1], calls[|calls| - 1];
      var page, p := IdealRun(pg, before), COLUMNS * IdealRun(pg, calls).top + c;
      RunRefines(s, pg, before);
      CallMovesAttributes(Run(s, before), page, call, c);
      CallRefines(Run(s, before), page, call);
      if |page.text| <= p < |page.text| + |call.text| {
      } else if p < COLUMNS * (page.top + ROWS) {
        RunKeepsAttributes(s, pg, before, p - COLUMNS * page.top);
      } else {
        RunKeepsAttributes(s, pg, before, COLUMNS * (ROWS - 1) + p % COLUMNS);
      }
    }
  }

  /** The colour of the last call of a run that drew in column `col` of row 22, or the
      attribute found there at the start. */
  function LastColorAtBottom(vm: VideoMemory, pg: Page, calls: seq<Call>, col: nat): byte
    requires col < COLUMNS
  {
    if calls == [] then vm[2 * (COLUMNS * (ROWS - 1) + col) + 1]
    else
      var before, call := calls[..|calls| - 1], calls[|calls| - 1];
      var start, cell := |IdealRun(pg, before).text|, COLUMNS * (IdealRun(pg, calls).top + ROWS - 1) + col;
      if start <= cell < start + |call.text| then call.color else LastColorAtBottom(vm, pg, before, col)
  }

  /** Scrolling leaves the attributes of row 22 where they are. */
  lemma {:induction false} BottomRowKeepsColor(s: Screen, pg: Page, calls: seq<Call>, col: nat)
    requires Shows(s, pg) && AllFit(s, calls) && col < COLUMNS
    ensures Run(s, calls).vm[2 * (COLUMNS * (ROWS - 1) + col) + 1] == LastColorAtBottom(s.vm, pg, calls, col)
  {
    hide Do, DoIdeal, Shows, Fits;
    if calls != [] {
      var before, call := calls[..|calls| - 1], calls[|calls| - 1];
      BottomRowKeepsColor(s, pg, before, col);
      RunRefines(s, pg, before);
      CallMovesAttributes(Run(s, before), IdealRun(pg, before), call, COLUMNS * (ROWS - 1) + col);
      CallRefines(Run(s, before), IdealRun(pg, before), call);
      assert (COLUMNS * (IdealRun(pg, calls).top + ROWS - 1) + col) % COLUMNS == col;
    }
  }

  // ---------- rows 23 and 24 ----------

  ghost predicate DashLine(vm: VideoMemory)
  {
    forall k :: 3680 <= k < 3840 && k % 2 == 0 ==> vm[k] == DASH
  }

  /** Rows 23 and 24 are as before, except that row 23 is dashed once anything scrolled. */
  ghost predicate StatusRowsKept(before: VideoMemory, after: VideoMemory, scrolled: bool)
  {
    forall k :: 3680 <= k < VM_SIZE ==>
      after[k] == if scrolled && k < 3840 && k % 2 == 0 then DASH else before[k]
  }

  lemma {:induction false} ScrollsKeepStatusRows(vm: VideoMemory, n: nat)
    ensures StatusRowsKept(vm, ScrolledTimes(vm, n), n != 0)
  {
    if n != 0 {
      ScrollsKeepStatusRows(vm, n - 1);
    }
  }

  lemma CallKeepsStatusRows(s: Screen, call: Call)
    requires Fits(s.vmx, |call.text|)
    ensures StatusRowsKept(s.vm, Do(s, call).vm, PlanFor(s.vmx, s.vmy, |call.text|).scrolls != 0)
    ensures DashLine(s.vm) ==> DashLine(Do(s, call).vm)
  {
    PlanStaysIffFits(s.vmx, s.vmy, |call.text|);
    ScrollsKeepStatusRows(s.vm, PlanFor(s.vmx, s.vmy, |call.text|).scrolls);
    assert StatusRowsKept(WithRoom(s, |call.text|).vm, Do(s, call).vm, false);
  }

  lemma {:induction false} RunKeepsStatusRows(s: Screen, calls: seq<Call>)
    requires AllFit(s, calls)
    ensures StatusRowsKept(s.vm, Run(s, calls).vm, ScrollsOf(s, calls) != 0)
  {
    hide Do, Fits, PlanFor;
    if calls != [] {
      var before, call := calls[..|calls| - 1], calls[|calls| - 1];
      RunKeepsStatusRows(s, before);
      CallKeepsStatusRows(Run(s, before), call);
    }
  }

  /** Once row 23 is the dash line, no run within the bound changes it. */
  lemma DashLineStays(s: Screen, calls: seq<Call>)
    requires AllFit(s, calls) && DashLine(s.vm)
    ensures DashLine(Run(s, calls).vm)
  {
    RunKeepsStatusRows(s, calls);
  }
}
