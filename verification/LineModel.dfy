/** The shell's line editor on values: what the buffer holds after any run of keys, against
    an ideal editor that is a stack of characters. */
module LineModel {
  import opened CTypes

  const BUFFER: nat := 127
  const ENTER: byte := 0x1C
  const BACKSPACE: byte := 0x0E
  const SPACE: byte := 0x20

  predicate Blank(c: byte)
  {
    c == 0 || c == SPACE
  }

  function TrimStart(s: seq<byte>): seq<byte>
  {
    if s != [] && Blank(s[0]) then TrimStart(s[1..]) else s
  }

  function TrimEnd(s: seq<byte>): seq<byte>
  {
    if s != [] && Blank(s[|s| - 1]) then TrimEnd(s[..|s| - 1]) else s
  }

  function Trim(s: seq<byte>): seq<byte>
  {
    TrimEnd(TrimStart(s))
  }

  /** The line up to its first blank. */
  function FirstToken(s: seq<byte>): seq<byte>
  {
    if s == [] || Blank(s[0]) then [] else [s[0]] + FirstToken(s[1..])
  }

  ghost predicate AllBlank(s: seq<byte>)
  {
    forall k :: 0 <= k < |s| ==> Blank(s[k])
  }

  // ---------- the ideal editor ----------

  /** A key on the ideal line; Enter hands over the trimmed line unless it is empty. */
  function LineAfter(line: seq<byte>, key: byte): seq<byte>
  {
    if key == ENTER then []
    else if key == BACKSPACE then if line == [] then [] else line[..|line| - 1]
    else line + [key]
  }

  function HandedBy(line: seq<byte>, key: byte): seq<seq<byte>>
  {
    if key == ENTER && Trim(line) != [] then [Trim(line)] else []
  }

  function LineAfterAll(line: seq<byte>, keys: seq<byte>): seq<byte>
  {
    if keys == [] then line else LineAfter(LineAfterAll(line, keys[..|keys| - 1]), keys[|keys| - 1])
  }

  function HandedByAll(line: seq<byte>, keys: seq<byte>): seq<seq<byte>>
  {
    if keys == [] then []
    else
      var before := keys[..|keys| - 1];
      HandedByAll(line, before) + HandedBy(LineAfterAll(line, before), keys[|keys| - 1])
  }

  /** At no point of the run does the line exceed `limit` characters. */
  predicate NeverLonger(line: seq<byte>, keys: seq<byte>, limit: nat)
  {
    |LineAfterAll(line, keys)| <= limit && (keys == [] || NeverLonger(line, keys[..|keys| - 1], limit))
  }

  // ---------- what follows the line ----------

  /** The line and what the buffer holds after it. */
  datatype Ideal = Ideal(line: seq<byte>, residue: seq<byte>)

  function Zeros(n: nat): seq<byte>
  {
    seq(n, _ => 0)
  }

  /** A character eats the first cell of the residue, a backspace gives back a NUL, an Enter
      on a blank line turns the line into residue, any other clears it. */
  function IdealAfter(x: Ideal, key: byte): (y: Ideal)
    ensures y.line == LineAfter(x.line, key)
  {
    if key == ENTER then Ideal([], if Trim(x.line) == [] then x.line + x.residue else Zeros(BUFFER - 1))
    else if key == BACKSPACE then
      if x.line == [] then x else Ideal(x.line[..|x.line| - 1], [0] + x.residue)
    else Ideal(x.line + [key], if x.residue == [] then [] else x.residue[1..])
  }

  function IdealAfterAll(x: Ideal, keys: seq<byte>): (y: Ideal)
    ensures y.line == LineAfterAll(x.line, keys)
  {
    if keys == [] then x else IdealAfter(IdealAfterAll(x, keys[..|keys| - 1]), keys[|keys| - 1])
  }

  /** What `code` reads: from the first non-blank to the end of the buffer. */
  function TextOf(x: Ideal): seq<byte>
  {
    TrimStart(x.line) + x.residue
  }

  function IdealTexts(x: Ideal, key: byte): seq<seq<byte>>
  {
    if key == ENTER && Trim(x.line) != [] then [TextOf(x)] else []
  }

  function IdealTextsAll(x: Ideal, keys: seq<byte>): seq<seq<byte>>
  {
    if keys == [] then []
    else
      var before := keys[..|keys| - 1];
      IdealTextsAll(x, before) + IdealTexts(IdealAfterAll(x, before), keys[|keys| - 1])
  }

  // ---------- the buffer ----------

  /** `command` and the number of pending characters (`cmd_char_num - 17`). */
  datatype Buffer = Buffer(cells: seq<byte>, pending: nat)

  function Cleared(): Buffer
  {
    Buffer(Zeros(BUFFER), 0)
  }

  /** The access a key makes lies inside the buffer. */
  predicate KeyFits(b: Buffer, key: byte)
  {
    && |b.cells| == BUFFER
    && (key == BACKSPACE ==> b.pending < BUFFER)
    && (key != ENTER && key != BACKSPACE ==> b.pending + 1 < BUFFER)
  }

  /** `have_key`. An Enter on a blank line forgets the pending count but not the cells. */
  function BufferAfter(b: Buffer, key: byte): Buffer
    requires KeyFits(b, key)
  {
    if key == ENTER then if Trim(b.cells) == [] then Buffer(b.cells, 0) else Cleared()
    else if key == BACKSPACE then
      if b.pending == 0 then b else Buffer(b.cells[b.pending := 0], b.pending - 1)
    else Buffer(b.cells[b.pending + 1 := key], b.pending + 1)
  }

  function TextsBy(b: Buffer, key: byte): seq<seq<byte>>
  {
    if key == ENTER && Trim(b.cells) != [] then [TrimStart(b.cells)] else []
  }

  /** The buffer is exactly a NUL, the line and a residue of blanks (not always NULs). */
  ghost predicate Holds(b: Buffer, x: Ideal)
  {
    && b == Buffer([0] + x.line + x.residue, |x.line|)
    && |b.cells| == BUFFER && AllBlank(x.residue)
  }

  // ---------- trimming ----------

  lemma {:induction false} TrimStartOfBlanks(s: seq<byte>, t: seq<byte>)
    requires AllBlank(s)
    ensures TrimStart(s + t) == TrimStart(t)
  {
    if s == [] {
      assert s + t == t;
    } else {
      TrimStartOfBlanks(s[1..], t);
      assert (s + t)[1..] == s[1..] + t;
    }
  }

  lemma {:induction false} TrimEndOfBlanks(s: seq<byte>, t: seq<byte>)
    requires AllBlank(t)
    ensures TrimEnd(s + t) == TrimEnd(s)
  {
    if t == [] {
      assert s + t == s;
    } else {
      hide Blank;
      var u, st := t[..|t| - 1], s + t;
      TrimEndOfBlanks(s, u);
      assert st[|st| - 1] == t[|t| - 1] && st[..|st| - 1] == s + u;
    }
  }

  lemma {:induction false} TrimStartKeepsTail(s: seq<byte>, t: seq<byte>)
    requires !AllBlank(s)
    ensures TrimStart(s + t) == TrimStart(s) + t
  {
    if Blank(s[0]) {
      var k :| 0 <= k < |s| && !Blank(s[k]);
      assert s[1..][k - 1] == s[k];
      TrimStartKeepsTail(s[1..], t);
      assert (s + t)[1..] == s[1..] + t;
    }
  }

  /** Blanks on either side do not change what is left after trimming. */
  lemma TrimIgnoresBlanks(before: seq<byte>, line: seq<byte>, after: seq<byte>)
    requires AllBlank(before) && AllBlank(after)
    ensures Trim(before + line + after) == Trim(line)
  {
    assert before + line + after == before + (line + after);
    TrimStartOfBlanks(before, line + after);
    if AllBlank(line) {
      TrimStartOfBlanks(line, after);
      TrimStartOfBlanks(line, []);
      assert line + [] == line;
      TrimStartOfBlanks(after, []);
      assert after + [] == after;
    } else {
      TrimStartKeepsTail(line, after);
      TrimEndOfBlanks(TrimStart(line), after);
    }
  }

  /** The text between the first and the last non-blank is the trimmed text. */
  lemma TrimIsSlice(s: seq<byte>, first: nat, last: nat)
    requires first <= last < |s| && !Blank(s[first]) && !Blank(s[last])
    requires forall k :: 0 <= k < |s| && (k < first || last < k) ==> Blank(s[k])
    ensures Trim(s) == s[first..last + 1]
  {
    var line := s[first..last + 1];
    assert s == s[..first] + line + s[last + 1..];
    TrimIgnoresBlanks(s[..first], line, s[last + 1..]);
    assert TrimStart(line) == line && TrimEnd(line) == line;
  }

  lemma TrimOfBlanks(s: seq<byte>)
    requires AllBlank(s)
    ensures Trim(s) == []
  {
    TrimStartOfBlanks(s, []);
    assert s + [] == s;
  }

  // ---------- the buffer follows the ideal editor ----------

  lemma TrimStartTwice(s: seq<byte>)
    ensures TrimStart(TrimStart(s)) == TrimStart(s)
  {}

  lemma HeldLineIsTrimmed(b: Buffer, x: Ideal)
    requires Holds(b, x)
    ensures Trim(b.cells) == Trim(x.line)
    ensures Trim(x.line) != [] ==> TrimStart(b.cells) == TextOf(x)
    ensures Trim(x.line) != [] ==> Trim(TextOf(x)) == Trim(x.line)
  {
    TrimIgnoresBlanks([0], x.line, x.residue);
    if Trim(x.line) != [] {
      TrimEmptyMeansBlank(x.line);
      assert [0] + x.line + x.residue == [0] + (x.line + x.residue);
      TrimStartOfBlanks([0], x.line + x.residue);
      TrimStartKeepsTail(x.line, x.residue);
      TrimStartTwice(b.cells);
    }
  }

  lemma NonBlankSurvivesTrim(s: seq<byte>, k: nat)
    requires k < |s| && !Blank(s[k])
    ensures Trim(s) != []
  {
    var first := FirstNonBlank(s, k);
    var last := LastNonBlank(s, k);
    TrimIsSlice(s, first, last);
  }

  lemma TrimEmptyMeansBlank(s: seq<byte>)
    ensures Trim(s) == [] <==> AllBlank(s)
  {
    if AllBlank(s) {
      TrimOfBlanks(s);
    } else {
      var k :| 0 <= k < |s| && !Blank(s[k]);
      NonBlankSurvivesTrim(s, k);
    }
  }

  lemma FirstNonBlank(s: seq<byte>, k: nat) returns (first: nat)
    requires k < |s| && !Blank(s[k])
    ensures first <= k && !Blank(s[first]) && forall i :: 0 <= i < first ==> Blank(s[i])
  {
    first := 0;
    while Blank(s[first])
      invariant first <= k && forall i :: 0 <= i < first ==> Blank(s[i])
      decreases k - first
    {
      first := first + 1;
    }
  }

  lemma LastNonBlank(s: seq<byte>, k: nat) returns (last: nat)
    requires k < |s| && !Blank(s[k])
    ensures k <= last < |s| && !Blank(s[last]) && forall i :: last < i < |s| ==> Blank(s[i])
  {
    last := |s| - 1;
    while Blank(s[last])
      invariant k <= last < |s| && forall i :: last < i < |s| ==> Blank(s[i])
      decreases last
    {
      last := last - 1;
    }
  }

  /** One key: the buffer goes on being the ideal line and its residue, and hands over the
      same text. */
  lemma KeyFollowsLine(b: Buffer, x: Ideal, key: byte)
    requires Holds(b, x)
    ensures KeyFits(b, key) <==> |LineAfter(x.line, key)| < BUFFER
    ensures KeyFits(b, key) ==> Holds(BufferAfter(b, key), IdealAfter(x, key))
    ensures TextsBy(b, key) == IdealTexts(x, key)
  {
    hide Trim, TrimStart;
    HeldLineIsTrimmed(b, x);
    TrimEmptyMeansBlank(x.line);
    if KeyFits(b, key) {
      var y := IdealAfter(x, key);
      assert BufferAfter(b, key).cells == [0] + y.line + y.residue;
    }
  }

  /** A character typed and erased again leaves the line, and a NUL in its place. */
  lemma TypeAndErase(x: Ideal, c: byte)
    requires c != 0x1C && c != 0x0E && x.residue != []
    ensures IdealAfter(IdealAfter(x, c), 0x0E) == Ideal(x.line, [0] + x.residue[1..])
  {
    var typed := IdealAfter(x, c);
    assert typed.line[..|typed.line| - 1] == x.line;
  }

  predicate RunFits(b: Buffer, keys: seq<byte>)
    decreases |keys|, 0
  {
    if keys == [] then |b.cells| == BUFFER
    else
      var before := keys[..|keys| - 1];
      RunFits(b, before) && KeyFits(BufferAfterAll(b, before), keys[|keys| - 1])
  }

  function BufferAfterAll(b: Buffer, keys: seq<byte>): Buffer
    requires RunFits(b, keys)
    decreases |keys|, 1
  {
    if keys == [] then b else BufferAfter(BufferAfterAll(b, keys[..|keys| - 1]), keys[|keys| - 1])
  }

  function TextsByAll(b: Buffer, keys: seq<byte>): seq<seq<byte>>
    requires RunFits(b, keys)
  {
    if keys == [] then []
    else
      var before := keys[..|keys| - 1];
      TextsByAll(b, before) + TextsBy(BufferAfterAll(b, before), keys[|keys| - 1])
  }

  /** For every run of keys: the buffer's accesses stay in range exactly when the line never
      exceeds 126 characters; then the buffer is the ideal line and its residue, and the
      texts handed to `code` are those of the ideal editor. */
  lemma {:induction false} RunFollowsLine(b: Buffer, x: Ideal, keys: seq<byte>)
    requires Holds(b, x)
    ensures RunFits(b, keys) <==> NeverLonger(x.line, keys, 126)
    ensures RunFits(b, keys) ==>
      && Holds(BufferAfterAll(b, keys), IdealAfterAll(x, keys))
      && TextsByAll(b, keys) == IdealTextsAll(x, keys)
  {
    hide BufferAfter, TextsBy, IdealTexts, IdealAfter, LineAfter, KeyFits, Trim;
    if keys != [] {
      var before, key := keys[..|keys| - 1], keys[|keys| - 1];
      RunFollowsLine(b, x, before);
      if RunFits(b, before) {
        KeyFollowsLine(BufferAfterAll(b, before), IdealAfterAll(x, before), key);
      }
    }
  }

  function Trimmed(texts: seq<seq<byte>>): seq<seq<byte>>
  {
    seq(|texts|, i requires 0 <= i < |texts| => Trim(texts[i]))
  }

  /** The windows of those texts are the trimmed lines of a stack of characters: neither the
      residue nor a blank Enter changes them. */
  lemma {:induction false} WindowsAreLines(b: Buffer, x: Ideal, keys: seq<byte>)
    requires Holds(b, x) && RunFits(b, keys)
    ensures Trimmed(TextsByAll(b, keys)) == HandedByAll(x.line, keys)
  {
    hide Trim, BufferAfter, IdealAfter;
    if keys != [] {
      var before, key := keys[..|keys| - 1], keys[|keys| - 1];
      WindowsAreLines(b, x, before);
      RunFollowsLine(b, x, before);
      RunFollowsLine(b, x, keys);
      HeldLineIsTrimmed(BufferAfterAll(b, before), IdealAfterAll(x, before));
    }
  }

  // ---------- what the commands see ----------

  /** The first token of the text from the window's start is the window's first token. */
  lemma {:induction false} TokenOfWindow(s: seq<byte>, rest: seq<byte>)
    requires rest == [] || Blank(rest[0])
    ensures FirstToken(s + rest) == FirstToken(s)
  {
    if s == [] {
      assert s + rest == rest;
    } else if !Blank(s[0]) {
      TokenOfWindow(s[1..], rest);
      assert (s + rest)[1..] == s[1..] + rest;
    }
  }

  lemma {:induction false} CStringUpTo(cells: seq<byte>, from: nat, to: nat)
    requires from <= to < |cells| && cells[to] == 0 && 0 !in cells[from..to]
    ensures Terminated(cells, from) && CString(cells, from) == cells[from..to]
    decreases |cells| - from
  {
    if from < to {
      assert cells[from..to][0] == cells[from];
      assert cells[from..to] == [cells[from]] + cells[from + 1..to];
      CStringUpTo(cells, from + 1, to);
    }
  }

  /** The spaces up to the first NUL of a residue. */
  function LeadingSpaces(s: seq<byte>): (r: seq<byte>)
    ensures r <= s && (|r| < |s| ==> s[|r|] != SPACE) && forall k :: 0 <= k < |r| ==> r[k] == SPACE
  {
    if s != [] && s[0] == SPACE then [SPACE] + LeadingSpaces(s[1..]) else []
  }

  lemma {:induction false} TrimEndIsPrefix(s: seq<byte>)
    ensures TrimEnd(s) <= s
    ensures TrimEnd(s) == s <==> s == [] || !Blank(s[|s| - 1])
  {
    if s != [] && Blank(s[|s| - 1]) {
      TrimEndIsPrefix(s[..|s| - 1]);
    }
  }

  lemma {:induction false} TrimStartIsSuffix(s: seq<byte>)
    ensures |TrimStart(s)| <= |s| && TrimStart(s) == s[|s| - |TrimStart(s)|..]
  {
    if s != [] && Blank(s[0]) {
      TrimStartIsSuffix(s[1..]);
    }
  }

  lemma {:induction false} LeadingSpacesEnd(residue: seq<byte>)
    requires AllBlank(residue) && 0 in residue
    ensures |LeadingSpaces(residue)| < |residue| && residue[|LeadingSpaces(residue)|] == 0
    ensures 0 !in LeadingSpaces(residue) && (LeadingSpaces(residue) == [] <==> residue[0] != SPACE)
  {
    if residue[0] == SPACE {
      var k :| 0 <= k < |residue| && residue[k] == 0;
      assert residue[1..][k - 1] == 0;
      LeadingSpacesEnd(residue[1..]);
    }
  }

  lemma ArgumentEnds(start: seq<byte>, residue: seq<byte>, off: nat)
    requires 0 !in start && AllBlank(residue) && 0 in residue && off <= |start|
    ensures Terminated(start + residue, off)
    ensures CString(start + residue, off) == start[off..] + LeadingSpaces(residue)
  {
    hide AllBlank, LeadingSpaces;
    LeadingSpacesEnd(residue);
    var spaces, text := LeadingSpaces(residue), start + residue;
    var end := |start| + |spaces|;
    assert text[end] == 0;
    assert text[off..end] == start[off..] + spaces;
    CStringUpTo(text, off, end);
  }

  lemma LinesEnd(line: seq<byte>)
    requires 0 !in line && Trim(line) != []
    ensures line != [] && Trim(line) <= TrimStart(line) && 0 !in TrimStart(line)
    ensures Trim(line) == TrimStart(line) <==> line[|line| - 1] != SPACE
  {
    var start := TrimStart(line);
    TrimStartIsSuffix(line);
    TrimEndIsPrefix(start);
    assert start[|start| - 1] == line[|line| - 1] && line[|line| - 1] in line;
    forall k | 0 <= k < |start|
      ensures start[k] != 0
    {
      assert start[k] == line[|line| - |start| + k] && line[|line| - |start| + k] in line;
    }
  }

  /** A command that reads its argument from offset `off` of the line up to the NUL gets the
      rest of the line with its trailing spaces and the leading spaces of the residue. It
      gets exactly the rest of the trimmed line if and only if the line does not end in a
      space and the residue does not begin with one. */
  lemma ArgumentIsExactIff(x: Ideal, off: nat)
    requires 0 !in x.line && AllBlank(x.residue) && 0 in x.residue && Trim(x.line) != [] && off <= |Trim(x.line)|
    ensures x.line != [] && Trim(x.line) <= TrimStart(x.line)
    ensures Terminated(TextOf(x), off) && CString(TextOf(x), off) == TrimStart(x.line)[off..] + LeadingSpaces(x.residue)
    ensures CString(TextOf(x), off) == Trim(x.line)[off..]
       <==> x.line[|x.line| - 1] != SPACE && x.residue[0] != SPACE
  {
    hide Trim, TrimStart, AllBlank, LeadingSpaces;
    LinesEnd(x.line);
    LeadingSpacesEnd(x.residue);
    ArgumentEnds(TrimStart(x.line), x.residue, off);
    var start, window, spaces := TrimStart(x.line), Trim(x.line), LeadingSpaces(x.residue);
    if start[off..] + spaces == window[off..] {
      assert |start| + |spaces| == |window|;
    }
  }

  /** The residue of a run that holds at most 125 characters ends in a NUL. */
  lemma {:induction false} RunKeepsLastNul(x: Ideal, keys: seq<byte>)
    requires |x.line| + |x.residue| == BUFFER - 1 && NeverLonger(x.line, keys, BUFFER - 2)
    requires x.residue != [] && x.residue[|x.residue| - 1] == 0 && 0 !in x.line && 0 !in keys
    ensures var y := IdealAfterAll(x, keys);
            && |y.line| + |y.residue| == BUFFER - 1 && 0 !in y.line
            && y.residue != [] && y.residue[|y.residue| - 1] == 0
  {
    hide IdealAfter, LineAfter;
    if keys != [] {
      var before, key := keys[..|keys| - 1], keys[|keys| - 1];
      RunKeepsLastNul(x, before);
      assert key in keys;
      KeyKeepsLastNul(IdealAfterAll(x, before), key);
    }
  }

  lemma KeyKeepsLastNul(x: Ideal, key: byte)
    requires |x.line| + |x.residue| == BUFFER - 1 && |LineAfter(x.line, key)| <= BUFFER - 2
    requires x.residue != [] && x.residue[|x.residue| - 1] == 0 && 0 !in x.line && key != 0
    ensures var y := IdealAfter(x, key);
            && |y.line| + |y.residue| == BUFFER - 1 && 0 !in y.line
            && y.residue != [] && y.residue[|y.residue| - 1] == 0
  {
    hide Trim;
  }

  /** Every Enter of the run comes on an empty line or on one that is not blank. */
  predicate NoBlankEnter(line: seq<byte>, keys: seq<byte>)
  {
    keys != [] ==>
      var before := keys[..|keys| - 1];
      && NoBlankEnter(line, before)
      && (keys[|keys| - 1] == ENTER ==> LineAfterAll(line, before) == [] || Trim(LineAfterAll(line, before)) != [])
  }

  /** Without an Enter on typed blanks nothing is left behind: the residue is all NUL. */
  lemma {:induction false} OnlyBlankEntersLeaveSpaces(x: Ideal, keys: seq<byte>)
    requires x.residue == Zeros(|x.residue|) && NoBlankEnter(x.line, keys)
    ensures var y := IdealAfterAll(x, keys); y.residue == Zeros(|y.residue|)
  {
    hide Trim;
    if keys != [] {
      OnlyBlankEntersLeaveSpaces(x, keys[..|keys| - 1]);
    }
  }
}
