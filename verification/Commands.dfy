/** What `code` does with the text it is given: the command its first word names, and the
    argument the command takes from the text after it. */
module Commands {
  import opened CTypes
  import opened HexDigits
  import opened LineModel

  /** `PastEnd`: the command reads beyond the buffer before it is decided. */
  datatype Action =
    | Help
    | SetColor(color: byte) | ColorError
    | Hash(text: seq<byte>) | UnknownAlgorithm
    | Print(text: seq<byte>) | PressString
    | Time(part: nat) | ParameterError
    | ShellVersion | SystemVersion | UnknownApplication
    | NoCommand
    | PastEnd

  // help, h, color, hash, pr, time, ver
  const NAMES: seq<seq<byte>> :=
    [[0x68, 0x65, 0x6C, 0x70], [0x68], [0x63, 0x6F, 0x6C, 0x6F, 0x72], [0x68, 0x61, 0x73, 0x68],
     [0x70, 0x72], [0x74, 0x69, 0x6D, 0x65], [0x76, 0x65, 0x72]]
  const COLOR: nat := 2
  const HASH: nat := 3
  const PRINT: nat := 4
  const TIME: nat := 5
  const VERSION: nat := 6

  // sha256
  const ALGORITHMS: seq<seq<byte>> := [[0x73, 0x68, 0x61, 0x32, 0x35, 0x36]]
  // a, y, mo, d, h, mi, s
  const TIME_PARTS: seq<seq<byte>> := [[0x61], [0x79], [0x6D, 0x6F], [0x64], [0x68], [0x6D, 0x69], [0x73]]
  // cmd, CMD, os, OS
  const APPLICATIONS: seq<seq<byte>> := [[0x63, 0x6D, 0x64], [0x43, 0x4D, 0x44], [0x6F, 0x73], [0x4F, 0x53]]

  /** A comparison of the text with one of the names reads beyond its end. */
  predicate RunsOut(text: seq<byte>, names: seq<seq<byte>>)
  {
    exists i :: 0 <= i < |names| && text <= names[i]
  }

  /** The place of `token` among the names, or their number if it is none of them. */
  function IndexOf(names: seq<seq<byte>>, token: seq<byte>): (k: nat)
    ensures k <= |names| && (k < |names| ==> names[k] == token) && forall i :: 0 <= i < k ==> names[i] != token
  {
    if names == [] then 0
    else if names[0] == token then 0
    else 1 + IndexOf(names[1..], token)
  }

  ghost predicate WithoutBlanks(names: seq<seq<byte>>)
  {
    forall i, k :: 0 <= i < |names| && 0 <= k < |names[i]| ==> !Blank(names[i][k])
  }

  /** The text of a command after its name and the character that follows it. */
  function After(text: seq<byte>, name: seq<byte>): seq<byte>
  {
    if |name| < |text| then text[|name| + 1..] else []
  }

  ghost function StringAt(text: seq<byte>, from: nat, make: seq<byte> -> Action): Action
  {
    if Terminated(text, from) then make(CString(text, from)) else PastEnd
  }

  function DigitsAction(text: seq<byte>): Action
  {
    if text == [] then PastEnd
    else if CharToHex(text[0]) == 0x1000 then ColorError
    else if |text| == 1 then PastEnd
    else if CharToHex(text[1]) == 0x1000 then ColorError
    else SetColor(((CharToHex(text[0]) & 0xFF) as byte << 4) | (CharToHex(text[1]) & 0xFF) as byte)
  }

  /** Two hexadecimal digits, with or without `0x` in front. */
  function ColorAction(text: seq<byte>): Action
  {
    if text == [] || (text[0] == 0x30 && |text| == 1) then PastEnd
    else if text[0] == 0x30 && (text[1] == 0x78 || text[1] == 0x58) then DigitsAction(text[2..])
    else DigitsAction(text)
  }

  ghost function HashAction(text: seq<byte>): Action
  {
    if RunsOut(text, ALGORITHMS) then PastEnd
    else if IndexOf(ALGORITHMS, FirstToken(text)) == 0 then StringAt(text, 7, s => Hash(s))
    else UnknownAlgorithm
  }

  /** `text` begins with the name, `pr`. */
  ghost function PrintAction(text: seq<byte>): Action
    requires |text| > 2
  {
    if text[2] == 0 then PressString
    else if |text| == 3 then PastEnd
    else if text[3] == 0 then PressString
    else StringAt(text, 3, s => Print(s))
  }

  function TimeAction(text: seq<byte>): Action
  {
    if RunsOut(text, TIME_PARTS) then PastEnd
    else
      var k := IndexOf(TIME_PARTS, FirstToken(text));
      if k < |TIME_PARTS| then Time(k) else ParameterError
  }

  function VersionAction(text: seq<byte>): Action
  {
    if RunsOut(text, APPLICATIONS) then PastEnd
    else
      var k := IndexOf(APPLICATIONS, FirstToken(text));
      if k < 2 then ShellVersion else if k < 4 then SystemVersion else UnknownApplication
  }

  ghost function ActionOf(text: seq<byte>): Action
  {
    if RunsOut(text, NAMES) then PastEnd
    else
      TokenIsPrefix(text);
      var k := IndexOf(NAMES, FirstToken(text));
      if k == |NAMES| then NoCommand
      else if k < COLOR then Help
      else if k == COLOR then ColorAction(After(text, NAMES[k]))
      else if k == HASH then HashAction(After(text, NAMES[k]))
      else if k == PRINT then PrintAction(text)
      else if k == TIME then TimeAction(After(text, NAMES[k]))
      else VersionAction(After(text, NAMES[k]))
  }

  lemma {:induction false} TokenIsPrefix(text: seq<byte>)
    ensures FirstToken(text) <= text
    ensures |FirstToken(text)| < |text| ==> Blank(text[|FirstToken(text)|])
    ensures forall k :: 0 <= k < |FirstToken(text)| ==> !Blank(text[k])
  {
    if text != [] && !Blank(text[0]) {
      TokenIsPrefix(text[1..]);
      forall k | 0 <= k < |FirstToken(text)|
        ensures !Blank(text[k])
      {
        assert k > 0 ==> text[k] == text[1..][k - 1];
      }
    }
  }

  lemma {:induction false} BlankEndsToken(text: seq<byte>, name: seq<byte>)
    requires name < text && Blank(text[|name|]) && forall k :: 0 <= k < |name| ==> !Blank(name[k])
    ensures FirstToken(text) == name
  {
    if name != [] {
      BlankEndsToken(text[1..], name[1..]);
    }
  }

  /** The comparison loop decides whether the first token is `name`. */
  lemma TokenIsIff(text: seq<byte>, name: seq<byte>)
    requires !(text <= name) && forall k :: 0 <= k < |name| ==> !Blank(name[k])
    ensures FirstToken(text) == name <==> name < text && Blank(text[|name|])
  {
    TokenIsPrefix(text);
    if name < text && Blank(text[|name|]) {
      BlankEndsToken(text, name);
    }
  }

  /** Every colour is reached: its two digits, with or without `0x`, set it. */
  lemma ColorReadsBack(color: byte, rest: seq<byte>)
    ensures var digits := [DigitChar(color >> 4), DigitChar(color & 0xF)];
            && ColorAction(digits + rest) == SetColor(color)
            && ColorAction([0x30, 0x78] + digits + rest) == SetColor(color)
  {
    var digits := [DigitChar(color >> 4), DigitChar(color & 0xF)];
    NibblesReadBack(color);
    assert (digits + rest)[0] == digits[0] && (digits + rest)[1] == digits[1];
    assert ([0x30, 0x78] + digits + rest)[2..] == digits + rest;
  }

  lemma NibblesReadBack(color: byte)
    ensures CharToHex(DigitChar(color >> 4)) != 0x1000 && CharToHex(DigitChar(color & 0xF)) != 0x1000
    ensures DigitChar(color & 0xF) != 0x78 && DigitChar(color & 0xF) != 0x58
    ensures ((CharToHex(DigitChar(color >> 4)) & 0xFF) as byte << 4) | (CharToHex(DigitChar(color & 0xF)) & 0xFF) as byte == color
  {}

  // ---------- on the ideal line ----------

  lemma {:induction false} TrimEndLeavesBlanks(s: seq<byte>)
    ensures TrimEnd(s) <= s && AllBlank(s[|TrimEnd(s)|..])
  {
    if s != [] && Blank(s[|s| - 1]) {
      var t := s[..|s| - 1];
      TrimEndLeavesBlanks(t);
      assert s[|TrimEnd(s)|..] == t[|TrimEnd(t)|..] + [s[|s| - 1]];
    }
  }

  /** The second word of a text: the token after the character that ends the first. */
  function SecondToken(text: seq<byte>): seq<byte>
  {
    FirstToken(After(text, FirstToken(text)))
  }

  /** The first word of the text is that of the trimmed line, whatever follows the line. */
  lemma TokenOfText(x: Ideal)
    requires AllBlank(x.residue)
    ensures FirstToken(TextOf(x)) == FirstToken(Trim(x.line)) && Trim(x.line) <= TextOf(x)
  {
    var start := TrimStart(x.line);
    TrimEndLeavesBlanks(start);
    var rest := start[|Trim(x.line)|..] + x.residue;
    assert TextOf(x) == Trim(x.line) + rest;
    TokenOfWindow(Trim(x.line), rest);
  }

  /** So is its second word. */
  lemma SecondTokenOfText(x: Ideal)
    requires AllBlank(x.residue)
    ensures SecondToken(TextOf(x)) == SecondToken(Trim(x.line))
  {
    var start := TrimStart(x.line);
    TrimEndLeavesBlanks(start);
    hide SecondToken, TrimStart, TrimEnd;
    var rest := start[|Trim(x.line)|..] + x.residue;
    assert TextOf(x) == Trim(x.line) + rest;
    BlanksAddNoToken(Trim(x.line), rest);
  }

  lemma BlanksAddNoToken(line: seq<byte>, rest: seq<byte>)
    requires AllBlank(rest)
    ensures SecondToken(line + rest) == SecondToken(line)
  {
    var first := FirstToken(line);
    TokenOfWindow(line, rest);
    TokenIsPrefix(line);
    if |first| < |line| {
      assert After(line + rest, first) == After(line, first) + rest;
      TokenOfWindow(After(line, first), rest);
    } else {
      assert After(line + rest, first) == if rest == [] then [] else rest[1..];
    }
  }

  lemma NamesAreWords()
    ensures WithoutBlanks(NAMES) && WithoutBlanks(ALGORITHMS) && WithoutBlanks(TIME_PARTS) && WithoutBlanks(APPLICATIONS)
  {}

  /** The choice of the command reads beyond the buffer exactly for the lines that fill it,
      do not end in a blank, and are, trimmed, the beginning of a command's name. */
  lemma ChoiceRunsOutIff(x: Ideal)
    requires AllBlank(x.residue) && Trim(x.line) != []
    ensures x.line != []
    ensures RunsOut(TextOf(x), NAMES)
       <==> x.residue == [] && !Blank(x.line[|x.line| - 1]) && RunsOut(Trim(x.line), NAMES)
  {
    hide NAMES;
    NamesAreWords();
    var start, text := TrimStart(x.line), TextOf(x);
    TrimStartIsSuffix(x.line);
    TrimEndIsPrefix(start);
    assert start != [] && start[|start| - 1] == x.line[|x.line| - 1];
    assert x.residue != [] ==> text[|start|] == x.residue[0] && Blank(text[|start|]);
    if RunsOut(text, NAMES) {
      var i :| 0 <= i < |NAMES| && text <= NAMES[i];
      assert forall k :: 0 <= k < |text| ==> text[k] == NAMES[i][k] && !Blank(text[k]);
      assert text[|start| - 1] == start[|start| - 1];
    }
    assert x.residue == [] ==> text == start;
  }

  lemma NulNeverRunsOut(text: seq<byte>, names: seq<seq<byte>>)
    requires text != [] && text[|text| - 1] == 0 && WithoutBlanks(names)
    ensures !RunsOut(text, names)
  {}

  lemma ColorDecided(text: seq<byte>)
    requires text != [] && text[|text| - 1] == 0
    ensures ColorAction(text) != PastEnd
  {}

  lemma AfterName(text: seq<byte>, name: seq<byte>)
    requires text != [] && text[|text| - 1] == 0 && FirstToken(text) == name && 0 !in name
    ensures |name| < |text| && name < text
    ensures After(text, name) == [] <==> |text| == |name| + 1
    ensures After(text, name) != [] ==> After(text, name)[|After(text, name)| - 1] == 0
  {
    TokenIsPrefix(text);
  }

  lemma HashPastEndIff(text: seq<byte>)
    requires text == [] || text[|text| - 1] == 0
    ensures HashAction(text) == PastEnd <==> text == [] || text == ALGORITHMS[0] + [0]
  {
    NamesAreWords();
    TokenIsPrefix(text);
    if text != [] {
      NulNeverRunsOut(text, ALGORITHMS);
      if text == ALGORITHMS[0] + [0] {
        BlankEndsToken(text, ALGORITHMS[0]);
      }
    }
  }

  /** While the buffer's last cell is NUL, a command reads beyond it only if it takes an
      argument and its name, or the algorithm after `hash`, ends at the cell before. */
  lemma PastEndIff(text: seq<byte>)
    requires text != [] && text[|text| - 1] == 0
    ensures var k := IndexOf(NAMES, FirstToken(text));
            ActionOf(text) == PastEnd
            <==> || (k in {COLOR, HASH, TIME, VERSION} && |text| == |NAMES[k]| + 1)
                 || (k == HASH && After(text, NAMES[k]) == ALGORITHMS[0] + [0])
  {
    hide IndexOf, FirstToken, RunsOut, ColorAction, HashAction, After;
    NamesAreWords();
    NulNeverRunsOut(text, NAMES);
    var k := IndexOf(NAMES, FirstToken(text));
    if k < |NAMES| {
      AfterName(text, NAMES[k]);
      var rest := After(text, NAMES[k]);
      HashPastEndIff(rest);
      if rest == [] {
        NothingRunsOut();
      } else {
        ColorDecided(rest);
        NulNeverRunsOut(rest, TIME_PARTS);
        NulNeverRunsOut(rest, APPLICATIONS);
      }
    }
  }

  lemma NothingRunsOut()
    ensures RunsOut([], TIME_PARTS) && RunsOut([], APPLICATIONS) && ColorAction([]) == PastEnd
  {
    assert [] <= TIME_PARTS[0] && [] <= APPLICATIONS[0];
  }

  lemma CStringShift(s: seq<byte>, k: nat, j: nat)
    requires k <= |s| && Terminated(s, k + j)
    ensures Terminated(s[k..], j) && CString(s[k..], j) == CString(s, k + j)
  {
    var r := CString(s, k + j);
    assert s[k..][j..j + |r|] == r && s[k..][j + |r|] == 0;
    CStringUpTo(s[k..], j, j + |r|);
  }

  // ---------- what the words of a line do, written out ----------

  /** Where a word stands in a list of different names. */
  lemma IndexOfName(names: seq<seq<byte>>, k: nat)
    requires k < |names| && forall i :: 0 <= i < k ==> names[i] != names[k]
    ensures IndexOf(names, names[k]) == k
  {
    hide IndexOf;
  }

  lemma NoName(names: seq<seq<byte>>, token: seq<byte>)
    ensures IndexOf(names, token) == |names| <==> token !in names
  {
    hide IndexOf;
  }

  lemma NamesDiffer()
    ensures forall i, j :: 0 <= i < j < |NAMES| ==> NAMES[i] != NAMES[j]
  {}

  /** The branch of `code` that a first word leads to. */
  lemma Branch(text: seq<byte>, k: nat, words: seq<seq<byte>>)
    requires text != [] && text[|text| - 1] == 0 && k < |NAMES| && FirstToken(text) == NAMES[k] && WithoutBlanks(words)
    ensures !RunsOut(text, NAMES) && IndexOf(NAMES, FirstToken(text)) == k && |text| > |NAMES[k]|
    ensures |text| > |NAMES[k]| + 1 ==> !RunsOut(After(text, NAMES[k]), words)
  {
    NamesDiffer();
    NamesAreWords();
    hide FirstToken, RunsOut, IndexOf, NAMES;
    NulNeverRunsOut(text, NAMES);
    assert 0 !in NAMES[k];
    AfterName(text, NAMES[k]);
    IndexOfName(NAMES, k);
    if |text| > |NAMES[k]| + 1 {
      NulNeverRunsOut(After(text, NAMES[k]), words);
    }
  }

  /** `help` and `h` give help. */
  lemma HelpByWord(text: seq<byte>)
    requires text != [] && text[|text| - 1] == 0
    requires FirstToken(text) == [0x68, 0x65, 0x6C, 0x70] || FirstToken(text) == [0x68]
    ensures ActionOf(text) == Help
  {
    hide FirstToken, RunsOut, IndexOf, ColorAction, HashAction, PrintAction, TimeAction, VersionAction;
    Branch(text, if FirstToken(text) == [0x68] then 1 else 0, []);
  }

  /** A first word that names no command gives the error message. */
  lemma UnknownByWord(text: seq<byte>)
    requires text != [] && text[|text| - 1] == 0
    requires FirstToken(text) !in [[0x68, 0x65, 0x6C, 0x70], [0x68], [0x63, 0x6F, 0x6C, 0x6F, 0x72], [0x68, 0x61, 0x73, 0x68],
                                   [0x70, 0x72], [0x74, 0x69, 0x6D, 0x65], [0x76, 0x65, 0x72]]
    ensures ActionOf(text) == NoCommand
  {
    hide FirstToken, RunsOut, IndexOf, ColorAction, HashAction, PrintAction, TimeAction, VersionAction;
    NamesAreWords();
    NulNeverRunsOut(text, NAMES);
    NoName(NAMES, FirstToken(text));
  }

  /** `time` and a second word: `a`, `y`, `mo`, `d`, `h`, `mi`, `s`. */
  lemma TimeByWord(text: seq<byte>)
    requires text != [] && text[|text| - 1] == 0 && FirstToken(text) == [0x74, 0x69, 0x6D, 0x65] && |text| > 5
    ensures var second := SecondToken(text);
            ActionOf(text) == if second == [0x61] then Time(0) else if second == [0x79] then Time(1)
                              else if second == [0x6D, 0x6F] then Time(2) else if second == [0x64] then Time(3)
                              else if second == [0x68] then Time(4) else if second == [0x6D, 0x69] then Time(5)
                              else if second == [0x73] then Time(6) else ParameterError
  {
    hide FirstToken, RunsOut, IndexOf, After, ColorAction, HashAction, PrintAction, VersionAction;
    NamesAreWords();
    Branch(text, TIME, TIME_PARTS);
    TimePart(SecondToken(text));
  }

  lemma TimePart(word: seq<byte>)
    ensures IndexOf(TIME_PARTS, word) == if word == [0x61] then 0 else if word == [0x79] then 1
                                         else if word == [0x6D, 0x6F] then 2 else if word == [0x64] then 3
                                         else if word == [0x68] then 4 else if word == [0x6D, 0x69] then 5
                                         else if word == [0x73] then 6 else 7
  {
    hide IndexOf;
    NoName(TIME_PARTS, word);
  }

  /** `ver` and a second word: `cmd`, `CMD`; `os`, `OS`. */
  lemma VersionByWord(text: seq<byte>)
    requires text != [] && text[|text| - 1] == 0 && FirstToken(text) == [0x76, 0x65, 0x72] && |text| > 4
    ensures var second := SecondToken(text);
            ActionOf(text) == if second == [0x63, 0x6D, 0x64] || second == [0x43, 0x4D, 0x44] then ShellVersion
                              else if second == [0x6F, 0x73] || second == [0x4F, 0x53] then SystemVersion
                              else UnknownApplication
  {
    hide FirstToken, RunsOut, IndexOf, After, ColorAction, HashAction, PrintAction, TimeAction;
    NamesAreWords();
    Branch(text, VERSION, APPLICATIONS);
    Application(SecondToken(text));
  }

  lemma Application(word: seq<byte>)
    ensures IndexOf(APPLICATIONS, word) == if word == [0x63, 0x6D, 0x64] then 0 else if word == [0x43, 0x4D, 0x44] then 1
                                           else if word == [0x6F, 0x73] then 2 else if word == [0x4F, 0x53] then 3 else 4
  {
    hide IndexOf;
    NoName(APPLICATIONS, word);
  }

  /** `hash` knows no second word but `sha256`. */
  lemma AlgorithmByWord(text: seq<byte>)
    requires text != [] && text[|text| - 1] == 0 && FirstToken(text) == [0x68, 0x61, 0x73, 0x68] && |text| > 5
    ensures ActionOf(text) == UnknownAlgorithm <==> SecondToken(text) != [0x73, 0x68, 0x61, 0x32, 0x35, 0x36]
  {
    hide FirstToken, RunsOut, IndexOf, After, CString, ColorAction, PrintAction, TimeAction, VersionAction;
    NamesAreWords();
    Branch(text, HASH, ALGORITHMS);
    NoName(ALGORITHMS, SecondToken(text));
  }

  /** `pr` asks for a text if a NUL is in one of the next two cells. */
  lemma PrintWithoutText(text: seq<byte>)
    requires text != [] && text[|text| - 1] == 0 && FirstToken(text) == [0x70, 0x72]
    ensures |text| >= 3 && (ActionOf(text) == PressString <==> text[2] == 0 || text[3] == 0)
  {
    hide FirstToken, RunsOut, IndexOf, CString, ColorAction, HashAction, TimeAction, VersionAction;
    Branch(text, PRINT, []);
  }

  /** A hexadecimal digit, upper or lower case, and its value. */
  predicate HexDigit(c: byte)
  {
    0x30 <= c <= 0x39 || 0x41 <= c <= 0x46 || 0x61 <= c <= 0x66
  }

  function HexValue(c: byte): byte
  {
    if c <= 0x39 then c - 0x30 else if c <= 0x46 then c - 0x37 else c - 0x57
  }

  /** `color` and two digits, in either case, after `0x`, `0X` or neither; anything else
      gives the error message. */
  lemma ColorByDigits(text: seq<byte>)
    requires text != [] && text[|text| - 1] == 0 && FirstToken(text) == [0x63, 0x6F, 0x6C, 0x6F, 0x72] && |text| > 6
    ensures var rest := text[6..];
            var digits := if rest[0] == 0x30 && |rest| > 1 && (rest[1] == 0x78 || rest[1] == 0x58) then rest[2..] else rest;
            ActionOf(text) == if |digits| > 1 && HexDigit(digits[0]) && HexDigit(digits[1])
                              then SetColor((HexValue(digits[0]) << 4) | HexValue(digits[1])) else ColorError
  {
    hide FirstToken, RunsOut, IndexOf, HashAction, PrintAction, TimeAction, VersionAction, CharToHex, HexDigit, HexValue;
    Branch(text, COLOR, []);
    var rest := text[6..];
    var digits := if rest[0] == 0x30 && |rest| > 1 && (rest[1] == 0x78 || rest[1] == 0x58) then rest[2..] else rest;
    assert digits != [];
    assert rest[|rest| - 1] == 0 && digits[|digits| - 1] == 0;
    HexRead(digits[0]);
    HexRead(0);
    HexRead(0x30);
    if |digits| > 1 {
      HexRead(digits[1]);
    }
  }

  lemma HexRead(c: byte)
    ensures CharToHex(c) == 0x1000 <==> !HexDigit(c)
    ensures HexDigit(c) ==> (CharToHex(c) & 0xFF) as byte == HexValue(c)
    ensures !HexDigit(0) && HexDigit(0x30)
  {}

  // ---------- arguments over runs of keys ----------

  /** The line does not end in a space and what follows it does not begin with one. */
  predicate Tight(x: Ideal)
    requires x.line != [] && x.residue != []
  {
    x.line[|x.line| - 1] != SPACE && x.residue[0] != SPACE
  }

  lemma BlankNeverRunsOut(text: seq<byte>, names: seq<seq<byte>>)
    requires |FirstToken(text)| < |text| && WithoutBlanks(names)
    ensures !RunsOut(text, names)
  {
    TokenIsPrefix(text);
  }

  lemma NamesAreDistinct()
    ensures IndexOf(NAMES, NAMES[PRINT]) == PRINT && IndexOf(NAMES, NAMES[HASH]) == HASH
    ensures IndexOf(ALGORITHMS, ALGORITHMS[0]) == 0
  {}

  lemma PrintsFromThird(text: seq<byte>)
    requires FirstToken(text) == NAMES[PRINT] && |text| > 3 && text[2] != 0 && text[3] != 0 && Terminated(text, 3)
    ensures ActionOf(text) == Print(CString(text, 3))
  {
    hide FirstToken, RunsOut, IndexOf, CString;
    NamesAreWords();
    NamesAreDistinct();
    BlankNeverRunsOut(text, NAMES);
  }

  lemma HashesFromSeventh(text: seq<byte>)
    requires |text| > 7 && FirstToken(text) == ALGORITHMS[0] && Terminated(text, 7)
    ensures HashAction(text) == Hash(CString(text, 7))
  {
    hide FirstToken, RunsOut, IndexOf, CString;
    NamesAreWords();
    NamesAreDistinct();
    BlankNeverRunsOut(text, ALGORITHMS);
  }

  lemma HashesFromTwelfth(text: seq<byte>)
    requires |text| > 12 && FirstToken(text) == NAMES[HASH] && FirstToken(text[5..]) == ALGORITHMS[0] && Terminated(text, 12)
    ensures ActionOf(text) == Hash(CString(text, 12))
  {
    hide FirstToken, RunsOut, IndexOf, CString, HashAction;
    NamesAreWords();
    NamesAreDistinct();
    BlankNeverRunsOut(text, NAMES);
    CStringShift(text, 5, 7);
    HashesFromSeventh(text[5..]);
  }

  /** `pr` prints the rest of the line, its trailing spaces and the spaces that follow: the
      rest of the trimmed line exactly when these are none. */
  lemma PrintsRestOfLine(x: Ideal)
    requires 0 !in x.line && AllBlank(x.residue) && 0 in x.residue
    requires Trim(x.line) != [] && FirstToken(Trim(x.line)) == NAMES[PRINT] && |Trim(x.line)| > 3
    ensures x.line != [] && |TrimStart(x.line)| >= |Trim(x.line)|
    ensures ActionOf(TextOf(x)) == Print(TrimStart(x.line)[3..] + LeadingSpaces(x.residue))
    ensures ActionOf(TextOf(x)) == Print(Trim(x.line)[3..]) <==> Tight(x)
  {
    hide Trim, TrimStart, FirstToken, AllBlank, LeadingSpaces, ActionOf;
    ArgumentIsExactIff(x, 3);
    TokenOfText(x);
    LinesEnd(x.line);
    assert TextOf(x)[2] == Trim(x.line)[2] && TextOf(x)[3] == Trim(x.line)[3];
    PrintsFromThird(TextOf(x));
  }

  /** It reads beyond the buffer exactly when no NUL follows the line. */
  lemma PrintsPastEndIff(x: Ideal)
    requires 0 !in x.line && AllBlank(x.residue)
    requires Trim(x.line) != [] && FirstToken(Trim(x.line)) == NAMES[PRINT] && |Trim(x.line)| > 3
    ensures ActionOf(TextOf(x)) == PastEnd <==> 0 !in x.residue
  {
    hide Trim, TrimStart, FirstToken, AllBlank, LeadingSpaces, IndexOf, RunsOut;
    if 0 in x.residue {
      PrintsRestOfLine(x);
    } else {
      TokenOfText(x);
      LinesEnd(x.line);
      NamesAreWords();
      NamesAreDistinct();
      BlankNeverRunsOut(TextOf(x), NAMES);
      assert forall k :: 0 <= k < |TextOf(x)| ==> TextOf(x)[k] != 0;
    }
  }

  /** And `hash sha256` hashes it. */
  lemma HashesRestOfLine(x: Ideal)
    requires 0 !in x.line && AllBlank(x.residue) && 0 in x.residue
    requires Trim(x.line) != [] && FirstToken(Trim(x.line)) == NAMES[HASH]
    requires |Trim(x.line)| > 12 && FirstToken(Trim(x.line)[5..]) == ALGORITHMS[0]
    ensures x.line != [] && |TrimStart(x.line)| >= |Trim(x.line)|
    ensures ActionOf(TextOf(x)) == Hash(TrimStart(x.line)[12..] + LeadingSpaces(x.residue))
    ensures ActionOf(TextOf(x)) == Hash(Trim(x.line)[12..]) <==> Tight(x)
  {
    hide Trim, TrimStart, FirstToken, AllBlank, LeadingSpaces, ActionOf;
    ArgumentIsExactIff(x, 12);
    TokenOfText(x);
    TokenInside(Trim(x.line)[5..], TextOf(x)[5..]);
    HashesFromTwelfth(TextOf(x));
  }

  lemma TokenInside(s: seq<byte>, t: seq<byte>)
    requires s <= t && |FirstToken(s)| < |s|
    ensures FirstToken(t) == FirstToken(s)
  {
    TokenIsPrefix(s);
    BlankEndsToken(t, FirstToken(s));
  }

  /** The editor before any key. */
  function Start(): Ideal
  {
    Ideal([], Zeros(BUFFER - 1))
  }

  /** For every run of keys without NUL that holds at most 125 characters: the next Enter
      hands over this text, and the residue is a field of spaces and NULs with a NUL last. */
  lemma RunReadsText(keys: seq<byte>)
    requires 0 !in keys && NeverLonger([], keys, 125)
    ensures var x := IdealAfterAll(Start(), keys);
            && RunFits(Cleared(), keys) && TextsBy(BufferAfterAll(Cleared(), keys), ENTER) == IdealTexts(x, ENTER)
            && 0 !in x.line && AllBlank(x.residue) && 0 in x.residue
            && TextOf(x) != [] && TextOf(x)[|TextOf(x)| - 1] == 0
  {
    hide BufferAfterAll, IdealAfterAll, TextsBy, IdealTexts, TrimStart;
    assert Cleared().cells == [0] + [] + Zeros(BUFFER - 1);
    RunFollowsLine(Cleared(), Start(), keys);
    LongerLimit([], keys);
    RunKeepsLastNul(Start(), keys);
    KeyFollowsLine(BufferAfterAll(Cleared(), keys), IdealAfterAll(Start(), keys), ENTER);
  }

  lemma {:induction false} LongerLimit(line: seq<byte>, keys: seq<byte>)
    requires NeverLonger(line, keys, BUFFER - 2)
    ensures NeverLonger(line, keys, BUFFER - 1)
  {
    if keys != [] {
      LongerLimit(line, keys[..|keys| - 1]);
    }
  }

  // ---------- stale blanks ----------

  function Spaces(n: nat): seq<byte>
  {
    seq(n, _ => SPACE)
  }

  /** Characters that neither end nor edit a line. */
  predicate Plain(keys: seq<byte>)
  {
    0 !in keys && ENTER !in keys && BACKSPACE !in keys
  }

  lemma {:induction false} RunsCompose(x: Ideal, first: seq<byte>, second: seq<byte>)
    ensures IdealAfterAll(x, first + second) == IdealAfterAll(IdealAfterAll(x, first), second)
  {
    hide IdealAfter, LineAfter;
    if second == [] {
      assert first + second == first;
    } else {
      var before := second[..|second| - 1];
      RunsCompose(x, first, before);
      assert (first + second)[..|first + second| - 1] == first + before;
    }
  }

  lemma {:induction false} TypingExtends(x: Ideal, keys: seq<byte>)
    requires Plain(keys) && |keys| <= |x.residue|
    ensures IdealAfterAll(x, keys) == Ideal(x.line + keys, x.residue[|keys|..])
  {
    if keys != [] {
      var before, key := keys[..|keys| - 1], keys[|keys| - 1];
      TypingExtends(x, before);
      assert key in keys;
      assert x.line + keys == x.line + before + [key];
    }
  }

  lemma {:induction false} SpacesLead(n: nat, zeros: nat)
    requires zeros > 0
    ensures LeadingSpaces(Spaces(n) + Zeros(zeros)) == Spaces(n)
  {
    var s := Spaces(n) + Zeros(zeros);
    if n > 0 {
      SpacesLead(n - 1, zeros);
      assert s[1..] == Spaces(n - 1) + Zeros(zeros);
      assert Spaces(n) == [SPACE] + Spaces(n - 1);
    }
  }

  /** `n` blanks and Enter, then `pr` and an argument: what is printed is the argument and
      those of the blanks that the new line does not cover. */
  lemma StaleBlanksReachArguments(n: nat, argument: seq<byte>)
    requires n <= BUFFER - 2 && 0 < |argument| <= BUFFER - 5
    requires Plain(argument) && argument[|argument| - 1] != SPACE
    ensures var keys := Spaces(n) + [ENTER] + (NAMES[PRINT] + [SPACE] + argument);
            var covered := |argument| + 3;
            && RunFits(Cleared(), keys) && TextsBy(BufferAfterAll(Cleared(), keys), ENTER) == [TextOf(IdealAfterAll(Start(), keys))]
            && ActionOf(TextOf(IdealAfterAll(Start(), keys))) == Print(argument + Spaces(if n < covered then 0 else n - covered))
  {
    hide IdealAfterAll, ActionOf, Trim, TrimStart, LeadingSpaces, FirstToken, NeverLonger, BufferAfterAll, RunFits, TextsBy;
    var line := NAMES[PRINT] + [SPACE] + argument;
    LineIsTight(argument);
    AfterBlanks(n, line);
    SpacesCovered(n, |line|);
    PrintsRestOfLine(IdealAfterAll(Start(), Spaces(n) + [ENTER] + line));
    BlanksThenLine(n, line);
    assert 0 !in Spaces(n) + [ENTER] + line;
    RunReadsText(Spaces(n) + [ENTER] + line);
  }

  lemma AfterBlanks(n: nat, line: seq<byte>)
    requires n <= BUFFER - 2 && |line| <= BUFFER - 2 && Plain(line)
    ensures IdealAfterAll(Start(), Spaces(n) + [ENTER] + line) == Ideal(line, (Spaces(n) + Zeros(BUFFER - 1 - n))[|line|..])
  {
    hide IdealAfterAll;
    EnterOnBlanks(n);
    RunsCompose(Start(), Spaces(n) + [ENTER], line);
    TypingExtends(Ideal([], Spaces(n) + Zeros(BUFFER - 1 - n)), line);
    assert [] + line == line;
  }

  lemma BlanksThenLine(n: nat, line: seq<byte>)
    requires n <= BUFFER - 2 && |line| <= BUFFER - 2 && Plain(line)
    ensures NeverLonger([], Spaces(n) + [ENTER] + line, BUFFER - 2)
  {
    hide LineAfterAll;
    NothingTyped();
    TypingStaysShort([], Spaces(n), BUFFER - 2);
    assert [] + Spaces(n) == Spaces(n);
    EnterStaysShort(Spaces(n));
    TypingStaysShort(Spaces(n) + [ENTER], line, BUFFER - 2);
  }

  lemma NothingTyped()
    ensures LineAfterAll([], []) == [] && NeverLonger([], [], BUFFER - 2)
  {}

  lemma EnterStaysShort(keys: seq<byte>)
    requires NeverLonger([], keys, BUFFER - 2)
    ensures NeverLonger([], keys + [ENTER], BUFFER - 2) && LineAfterAll([], keys + [ENTER]) == []
  {
    assert (keys + [ENTER])[..|keys + [ENTER]| - 1] == keys;
  }

  /** Typing after a run in which no line was too long, and which ended in an empty line. */
  lemma {:induction false} TypingStaysShort(first: seq<byte>, typed: seq<byte>, limit: nat)
    requires NeverLonger([], first, limit) && LineAfterAll([], first) == [] && Plain(typed) && |typed| <= limit
    ensures NeverLonger([], first + typed, limit) && LineAfterAll([], first + typed) == typed
  {
    if typed == [] {
      assert first + typed == first;
    } else {
      var before, key := typed[..|typed| - 1], typed[|typed| - 1];
      TypingStaysShort(first, before, limit);
      assert (first + typed)[..|first + typed| - 1] == first + before;
      assert key in typed && typed == before + [key];
    }
  }

  /** Five blanks, Enter, `pr x`: the argument is `x` and a blank. */
  lemma FiveBlanks()
    ensures var keys := [0x20, 0x20, 0x20, 0x20, 0x20, 0x1C, 0x70, 0x72, 0x20, 0x78];
            ActionOf(TextOf(IdealAfterAll(Start(), keys))) == Print([0x78, 0x20])
  {
    hide ActionOf, IdealAfterAll;
    StaleBlanksReachArguments(5, [0x78]);
    assert Spaces(5) + [ENTER] + (NAMES[PRINT] + [SPACE] + [0x78]) == [0x20, 0x20, 0x20, 0x20, 0x20, 0x1C, 0x70, 0x72, 0x20, 0x78];
    assert [0x78] + Spaces(1) == [0x78, 0x20];
  }

  lemma SpacesCovered(n: nat, k: nat)
    requires n < BUFFER - 1 && k < BUFFER - 1
    ensures var rest := (Spaces(n) + Zeros(BUFFER - 1 - n))[k..];
            && AllBlank(rest) && 0 in rest && LeadingSpaces(rest) == Spaces(if n < k then 0 else n - k)
  {
    hide LeadingSpaces;
    var rest, left := (Spaces(n) + Zeros(BUFFER - 1 - n))[k..], if n < k then 0 else n - k;
    assert rest == Spaces(left) + Zeros(BUFFER - 1 - k - left);
    assert rest[|rest| - 1] == 0;
    SpacesLead(left, BUFFER - 1 - k - left);
  }

  lemma EnterOnBlanks(n: nat)
    requires n <= BUFFER - 2
    ensures IdealAfterAll(Start(), Spaces(n) + [ENTER]) == Ideal([], Spaces(n) + Zeros(BUFFER - 1 - n))
  {
    hide IdealAfterAll, Trim;
    TypingExtends(Start(), Spaces(n));
    RunsCompose(Start(), Spaces(n), [ENTER]);
    TrimOfBlanks(Spaces(n));
    var blank := IdealAfterAll(Start(), Spaces(n));
    assert blank.line == Spaces(n) && blank.residue == Zeros(BUFFER - 1 - n);
    OneKey(blank, ENTER);
  }

  lemma OneKey(x: Ideal, key: byte)
    ensures IdealAfterAll(x, [key]) == IdealAfter(x, key)
  {
    assert [key][..0] == [];
  }

  lemma LineIsTight(argument: seq<byte>)
    requires argument != [] && Plain(argument) && argument[|argument| - 1] != SPACE
    ensures var line := NAMES[PRINT] + [SPACE] + argument;
            && Plain(line) && line[|line| - 1] != SPACE && |line| == |argument| + 3 && line[3..] == argument
            && Trim(line) == line && TrimStart(line) == line && FirstToken(line) == NAMES[PRINT]
  {
    var line := NAMES[PRINT] + [SPACE] + argument;
    assert line[|line| - 1] == argument[|argument| - 1] && argument[|argument| - 1] in argument;
    NamesAreWords();
    BlankEndsToken(line, NAMES[PRINT]);
  }
}
