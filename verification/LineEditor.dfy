/** The shell's key handlers over their fixed buffer, and the recognition of commands. */
module LineEditor {
  import opened CTypes
  import opened HexDigits
  import opened LineModel
  import opened Commands

  datatype Check = Same | Differs | RunsPast

  /** [base, base + len) is the text between the first and the last non-blank cell from
      `from` on. */
  ghost predicate WindowAt(cells: seq<byte>, from: nat, base: nat, len: nat)
  {
    && from <= base && 0 < len && base + len <= |cells|
    && !Blank(cells[base]) && !Blank(cells[base + len - 1])
    && forall k :: from <= k < |cells| && (k < base || base + len <= k) ==> Blank(cells[k])
  }

  lemma WindowIsTrim(cells: seq<byte>, base: nat, len: nat)
    requires WindowAt(cells, 0, base, len)
    ensures Trim(cells) == cells[base..base + len] && TrimStart(cells) == cells[base..]
  {
    TrimIsSlice(cells, base, base + len - 1);
    assert cells == cells[..base] + cells[base..];
    TrimStartOfBlanks(cells[..base], cells[base..]);
  }

  lemma WordsHaveNoBlanks(name: seq<byte>)
    requires 0 !in name && SPACE !in name
    ensures forall k :: 0 <= k < |name| ==> !Blank(name[k])
  {}

  // ---------- the column counters ----------

  /** `line_char_num` and `line_num`. */
  datatype Counters = Counters(column: uint32, row: uint32)

  const FIRST_COUNTERS := Counters(17, 0)

  function CountersAfter(c: Counters, key: byte, pending: nat): Counters
  {
    if key == ENTER then FIRST_COUNTERS
    else if key == BACKSPACE then
      if pending == 0 then c
      else
        var column := (c.column - 1) % UINT32_RANGE;
        if column == 0 then Counters(79, (c.row - 1) % UINT32_RANGE) else Counters(column, c.row)
    else
      var column := (c.column + 1) % UINT32_RANGE;
      if column >= 80 then Counters(0, (c.row + 1) % UINT32_RANGE) else Counters(column, c.row)
  }

  /** They give the place after the prompt and `n` characters. */
  predicate Track(c: Counters, n: nat)
  {
    c.column < 80 && 80 * c.row + c.column == 17 + n
  }

  /** One key keeps them right except a backspace at the first or second column of the second
      row, that is, with 63 or 64 characters held. */
  lemma CountersTrackIff(c: Counters, line: seq<byte>, key: byte)
    requires Track(c, |line|) && |line| < BUFFER
    ensures Track(CountersAfter(c, key, |line|), |LineAfter(line, key)|)
       <==> !(key == BACKSPACE && (|line| == 63 || |line| == 64))
  {}

  /** What they are then: the last column of the first row, or a column of 2^32 - 1. */
  lemma CountersSlip(c: Counters, n: nat)
    requires Track(c, n) && (n == 63 || n == 64)
    ensures CountersAfter(c, BACKSPACE, n) == if n == 64 then Counters(79, 0) else Counters(0xFFFF_FFFF, 1)
  {}

  function CountersAfterAll(c: Counters, line: seq<byte>, keys: seq<byte>): Counters
  {
    if keys == [] then c
    else
      var before := keys[..|keys| - 1];
      CountersAfter(CountersAfterAll(c, line, before), keys[|keys| - 1], |LineAfterAll(line, before)|)
  }

  /** So they are right over every run of keys that stays on the prompt's row. */
  lemma {:induction false} CountersTrackRun(keys: seq<byte>)
    requires NeverLonger([], keys, 62)
    ensures Track(CountersAfterAll(FIRST_COUNTERS, [], keys), |LineAfterAll([], keys)|)
  {
    hide CountersAfter, LineAfter;
    if keys != [] {
      var before, key := keys[..|keys| - 1], keys[|keys| - 1];
      CountersTrackRun(before);
      CountersTrackIff(CountersAfterAll(FIRST_COUNTERS, [], before), LineAfterAll([], before), key);
    }
  }

  // ---------- the handlers ----------

  class LineEditor {
    const command: array<byte>
    var cmdCharNum: uint32
    var lineCharNum: uint32
    var lineNum: uint32
    var commandBase: uint32
    var commandLen: uint32
    ghost var ideal: Ideal

    ghost function Buf(): Buffer
      reads this, command
      requires cmdCharNum >= 17
    {
      Buffer(command[..], cmdCharNum - 17)
    }

    ghost function Place(): Counters
      reads this
    {
      Counters(lineCharNum, lineNum)
    }

    ghost predicate Valid()
      reads this, command
    {
      && cmdCharNum >= 17 && command.Length == BUFFER
      && Holds(Buf(), ideal) && commandBase == 0 && commandLen == 0
    }

    /** The buffer from `commandBase` on. */
    ghost function Rest(): seq<byte>
      reads this, command
    {
      if commandBase < command.Length then command[commandBase..] else []
    }

    constructor ()
      ensures Valid() && fresh(command) && ideal == Start() && Place() == FIRST_COUNTERS
    {
      command := new byte[BUFFER](_ => 0);
      cmdCharNum, lineCharNum, lineNum, commandBase, commandLen := 17, 17, 0, 0, 0;
      ideal := Start();
      new;
      assert command[..] == [0] + [] + Zeros(BUFFER - 1);
    }

    /** `cmd_calculate`: finds the window of the text and says whether there is any. */
    method CmdCalculate() returns (found: bool)
      requires command.Length == BUFFER && commandBase < 0x8000_0000
      modifies this`commandBase, this`commandLen
      ensures found <==> exists k :: old(commandBase) <= k < BUFFER && !Blank(command[k])
      ensures found ==> WindowAt(command[..], old(commandBase), commandBase, commandLen)
      ensures !found ==> commandBase == old(commandBase)
    {
      found := false;
      var lastChar: uint32, i := 0, commandBase;
      while i < BUFFER
        invariant old(commandBase) <= i && (i <= BUFFER || i == old(commandBase))
        invariant !found ==> commandBase == old(commandBase) && lastChar == 0
        invariant !found ==> forall k :: old(commandBase) <= k < i && k < BUFFER ==> Blank(command[k])
        invariant found ==> old(commandBase) <= commandBase <= lastChar < i <= BUFFER
        invariant found ==> !Blank(command[commandBase]) && !Blank(command[lastChar])
        invariant found ==> forall k :: old(commandBase) <= k < commandBase || lastChar < k < i ==> Blank(command[k])
      {
        if command[i] != 0 && command[i] != SPACE {
          if !found {
            commandBase := i;
            found := true;
          }
          lastChar := i;
        }
        i := i + 1;
      }
      commandLen := (lastChar + 1 - commandBase) % UINT32_RANGE;
    }

    /** `cmd_code_check`, at any base. Reading beyond the buffer ends the comparison here. */
    method CmdCodeCheck(s: seq<byte>) returns (r: Check)
      requires command.Length == BUFFER && Terminated(s, 0)
      ensures r == RunsPast <==> Rest() <= CString(s, 0)
      ensures r == Same <==> CString(s, 0) < Rest() && Blank(Rest()[|CString(s, 0)|])
      ensures SPACE !in CString(s, 0) && r != RunsPast ==> (r == Same <==> FirstToken(Rest()) == CString(s, 0))
    {
      hide FirstToken;
      var len := StrLen(s);
      ghost var text, name := Rest(), CString(s, 0);
      if SPACE !in name && !(text <= name) {
        WordsHaveNoBlanks(name);
        TokenIsIff(text, name);
      }
      var i := 0;
      while i < len
        invariant 0 <= i <= len && i <= |text|
        invariant forall k :: 0 <= k < i ==> text[k] == name[k]
      {
        if commandBase + i >= BUFFER {
          return RunsPast;
        }
        assert text[i] == command[commandBase + i];
        if command[commandBase + i] != s[i] {
          assert text[i] != name[i];
          return Differs;
        }
        i := i + 1;
      }
      if commandBase + len >= BUFFER {
        return RunsPast;
      }
      assert text[len] == command[commandBase + len];
      if command[commandBase + len] != 0x00 && command[commandBase + len] != SPACE {
        return Differs;
      }
      return Same;
    }

    /** The comparison with a name without blanks. */
    method Is(name: seq<byte>) returns (r: Check)
      requires command.Length == BUFFER && forall k :: 0 <= k < |name| ==> !Blank(name[k])
      ensures r == RunsPast <==> Rest() <= name
      ensures r == Same ==> |name| < |Rest()|
      ensures r != RunsPast ==> (r == Same <==> FirstToken(Rest()) == name)
    {
      hide FirstToken, Rest, CString;
      assert (name + [0])[0..|name|] == name;
      CStringUpTo(name + [0], 0, |name|);
      r := CmdCodeCheck(name + [0]);
    }

    /** A chain of comparisons: the first name that is the next word. */
    method Select(names: seq<seq<byte>>) returns (k: nat, past: bool)
      requires command.Length == BUFFER && WithoutBlanks(names)
      ensures past <==> RunsOut(Rest(), names)
      ensures !past ==> k == IndexOf(names, FirstToken(Rest()))
    {
      hide FirstToken, IndexOf, Rest;
      k := 0;
      while k < |names|
        invariant k <= |names| && forall i :: 0 <= i < k ==> names[i] != FirstToken(Rest())
        invariant forall i :: 0 <= i < k ==> !(Rest() <= names[i])
      {
        var r := Is(names[k]);
        if r == RunsPast {
          return k, true;
        }
        if r == Same {
          BlankNeverRunsOut(Rest(), names);
          IndexIsFirst(names, FirstToken(Rest()), k);
          return k, false;
        }
        k := k + 1;
      }
      past := false;
      IndexIsFirst(names, FirstToken(Rest()), k);
    }

    /** The string at `commandBase`, as `printf` and `sha256` read it. */
    method Argument() returns (ended: bool, text: seq<byte>)
      requires command.Length == BUFFER
      ensures ended <==> Terminated(Rest(), 0)
      ensures ended ==> text == CString(Rest(), 0)
    {
      var end := commandBase;
      while end < BUFFER && command[end] != 0
        invariant commandBase <= end && (end <= BUFFER || end == commandBase)
        invariant forall k :: commandBase <= k < end && k < BUFFER ==> command[k] != 0
      {
        end := end + 1;
      }
      if end >= BUFFER {
        return false, [];
      }
      ended, text := true, command[commandBase..end];
      assert Rest()[end - commandBase] == 0 && Rest()[0..end - commandBase] == text;
      CStringUpTo(Rest(), 0, end - commandBase);
    }

    /** `command_base = command_base + n; command_len = command_len - n` */
    method Advance(n: nat)
      requires command.Length == BUFFER && n <= 8 && commandBase <= BUFFER + 8
      modifies this`commandBase, this`commandLen
      ensures commandBase == old(commandBase) + n
      ensures Rest() == if n <= |old(Rest())| then old(Rest())[n..] else []
    {
      commandBase, commandLen := commandBase + n, (commandLen - n) % UINT32_RANGE;
    }

    /** The two digits of `color`. */
    method Digits() returns (done: Action)
      requires command.Length == BUFFER
      ensures done == DigitsAction(Rest())
    {
      if commandBase >= BUFFER {
        return PastEnd;
      }
      if CharToHex(command[commandBase]) == 0x1000 {
        return ColorError;
      }
      if commandBase + 1 >= BUFFER {
        return PastEnd;
      }
      if CharToHex(command[commandBase + 1]) == 0x1000 {
        return ColorError;
      }
      return SetColor(((CharToHex(command[commandBase]) & 0xFF) as byte << 4) | (CharToHex(command[commandBase + 1]) & 0xFF) as byte);
    }

    method Color() returns (done: Action)
      requires command.Length == BUFFER && commandBase <= BUFFER
      modifies this`commandBase, this`commandLen
      ensures done == ColorAction(old(Rest()))
    {
      if commandBase >= BUFFER || (command[commandBase] == 0x30 && commandBase + 1 >= BUFFER) {
        return PastEnd;
      }
      if command[commandBase] == 0x30 && (command[commandBase + 1] == 0x78 || command[commandBase + 1] == 0x58) {
        Advance(2);
      }
      done := Digits();
    }

    method HashCommand() returns (done: Action)
      requires command.Length == BUFFER && commandBase <= BUFFER
      modifies this`commandBase, this`commandLen
      ensures done == HashAction(old(Rest()))
    {
      NamesAreWords();
      var k, past := Select(ALGORITHMS);
      if past {
        return PastEnd;
      }
      if k == 1 {
        return UnknownAlgorithm;
      }
      ghost var rest := Rest();
      TokenIsPrefix(rest);
      Advance(7);
      TailTerminated(rest, 7);
      var ended, text := Argument();
      if !ended {
        return PastEnd;
      }
      return Hash(text);
    }

    method PrintCommand() returns (done: Action)
      requires command.Length == BUFFER && commandBase + 2 < BUFFER
      modifies this`commandBase, this`commandLen
      ensures done == PrintAction(old(Rest()))
    {
      if command[commandBase + 2] == 0x00 {
        return PressString;
      }
      if commandBase + 3 >= BUFFER {
        return PastEnd;
      }
      if command[commandBase + 3] == 0x00 {
        return PressString;
      }
      ghost var rest := Rest();
      Advance(3);
      TailTerminated(rest, 3);
      var ended, text := Argument();
      if !ended {
        return PastEnd;
      }
      return Print(text);
    }

    method TimeCommand() returns (done: Action)
      requires command.Length == BUFFER
      ensures done == TimeAction(Rest())
    {
      NamesAreWords();
      var k, past := Select(TIME_PARTS);
      return if past then PastEnd else if k < |TIME_PARTS| then Time(k) else ParameterError;
    }

    method VersionCommand() returns (done: Action)
      requires command.Length == BUFFER
      ensures done == VersionAction(Rest())
    {
      NamesAreWords();
      var k, past := Select(APPLICATIONS);
      return if past then PastEnd else if k < 2 then ShellVersion else if k < 4 then SystemVersion else UnknownApplication;
    }

    /** `code`: the command and its argument, or that it reads beyond the buffer. */
    method Code() returns (done: Action)
      requires command.Length == BUFFER && commandBase < BUFFER
      modifies this`commandBase, this`commandLen
      ensures done == ActionOf(old(Rest()))
    {
      hide FirstToken, RunsOut, IndexOf, ColorAction, HashAction, TimeAction, VersionAction, PrintAction;
      NamesAreWords();
      TokenIsPrefix(Rest());
      var k, past := Select(NAMES);
      if past {
        return PastEnd;
      }
      ghost var text := Rest();
      if k == |NAMES| {
        return NoCommand;
      }
      NameLengths(k);
      NamedIsLonger(text, NAMES, k);
      if k < COLOR {
        return Help;
      } else if k == PRINT {
        done := PrintCommand();
        return;
      }
      Advance(|NAMES[k]| + 1);
      assert Rest() == After(text, NAMES[k]);
      if k == COLOR {
        done := Color();
      } else if k == HASH {
        done := HashCommand();
      } else if k == TIME {
        done := TimeCommand();
      } else {
        done := VersionCommand();
      }
    }

    /** The part of `enter` up to the clearing: the text, if any, and what `code` does with it. */
    method Submit() returns (handed: seq<seq<byte>>, done: seq<Action>)
      requires command.Length == BUFFER && commandBase == 0
      modifies this`commandBase, this`commandLen
      ensures handed == TextsBy(Buffer(command[..], 0), ENTER)
      ensures |done| == |handed| && forall k :: 0 <= k < |handed| ==> done[k] == ActionOf(handed[k])
    {
      hide Trim, TrimStart, ActionOf;
      var found := CmdCalculate();
      TrimEmptyMeansBlank(command[..]);
      if !found {
        return [], [];
      }
      assert !Blank(command[..][commandBase]);
      WindowIsTrim(command[..], commandBase, commandLen);
      handed := [command[commandBase..]];
      var d := Code();
      done := [d];
    }

    /** `enter`: hands the text, if any, to `code`, and starts a new line. */
    method Enter() returns (handed: seq<seq<byte>>, done: seq<Action>)
      requires Valid()
      modifies this, command
      ensures Valid() && ideal == IdealAfter(old(ideal), ENTER) && Place() == FIRST_COUNTERS
      ensures Buf() == BufferAfter(old(Buf()), ENTER)
      ensures handed == IdealTexts(old(ideal), ENTER)
      ensures |done| == |handed| && forall k :: 0 <= k < |handed| ==> done[k] == ActionOf(handed[k])
    {
      hide Trim, TrimStart, ActionOf, Holds, IdealAfter, IdealTexts, AllBlank;
      KeyFollowsLine(Buf(), ideal, ENTER);
      ideal := IdealAfter(ideal, ENTER);
      handed, done := Submit();
      if handed == [] {
        cmdCharNum, lineCharNum, lineNum, commandBase, commandLen := 17, 17, 0, 0, 0;
        return;
      }
      for i := 0 to BUFFER
        invariant forall k :: 0 <= k < i ==> command[k] == 0
        modifies command
      {
        command[i] := 0;
      }
      assert command[..] == Cleared().cells;
      cmdCharNum, lineCharNum, lineNum, commandBase, commandLen := 17, 17, 0, 0, 0;
    }

    /** `back_space` */
    method BackSpace()
      requires Valid()
      modifies this, command
      ensures Valid() && ideal == IdealAfter(old(ideal), BACKSPACE)
      ensures Buf() == BufferAfter(old(Buf()), BACKSPACE)
      ensures Place() == CountersAfter(old(Place()), BACKSPACE, |old(ideal).line|)
    {
      hide Trim;
      KeyFollowsLine(Buf(), ideal, BACKSPACE);
      ideal := IdealAfter(ideal, BACKSPACE);
      if cmdCharNum <= 17 {
        return;
      }
      command[cmdCharNum - 17] := 0x00;
      cmdCharNum := cmdCharNum - 1;
      lineCharNum := (lineCharNum - 1) % UINT32_RANGE;
      if lineCharNum == 0 {
        lineNum := (lineNum - 1) % UINT32_RANGE;
        lineCharNum := 79;
      }
    }

    /** Any other key. */
    method Store(key: byte)
      requires Valid() && key != ENTER && key != BACKSPACE && KeyFits(Buf(), key)
      modifies this, command
      ensures Valid() && ideal == IdealAfter(old(ideal), key)
      ensures Buf() == BufferAfter(old(Buf()), key)
      ensures Place() == CountersAfter(old(Place()), key, |old(ideal).line|)
    {
      hide Trim, IdealAfter;
      KeyFollowsLine(Buf(), ideal, key);
      ideal := IdealAfter(ideal, key);
      cmdCharNum := cmdCharNum + 1;
      lineCharNum := (lineCharNum + 1) % UINT32_RANGE;
      if lineCharNum >= 80 {
        lineNum := (lineNum + 1) % UINT32_RANGE;
        lineCharNum := 0;
      }
      command[cmdCharNum - 17] := key;
    }

    /** `have_key`, for every key that stores inside the buffer. */
    method HaveKey(key: byte) returns (handed: seq<seq<byte>>, done: seq<Action>)
      requires Valid() && KeyFits(Buf(), key)
      modifies this, command
      ensures Valid() && ideal == IdealAfter(old(ideal), key)
      ensures Buf() == BufferAfter(old(Buf()), key)
      ensures Place() == CountersAfter(old(Place()), key, |old(ideal).line|)
      ensures handed == IdealTexts(old(ideal), key)
      ensures |done| == |handed| && forall k :: 0 <= k < |handed| ==> done[k] == ActionOf(handed[k])
    {
      hide Trim, ActionOf, IdealAfter, BufferAfter, Holds;
      handed, done := [], [];
      if key == ENTER {
        handed, done := Enter();
        return;
      } else if key == BACKSPACE {
        BackSpace();
        return;
      }
      Store(key);
    }
  }

  lemma IndexIsFirst(names: seq<seq<byte>>, token: seq<byte>, k: nat)
    requires k <= |names| && (forall i :: 0 <= i < k ==> names[i] != token) && (k < |names| ==> names[k] == token)
    ensures IndexOf(names, token) == k
  {}

  lemma NameLengths(k: nat)
    requires k < |NAMES|
    ensures 0 < |NAMES[k]| <= 5 && |NAMES[PRINT]| == 2
  {}

  lemma NamedIsLonger(text: seq<byte>, names: seq<seq<byte>>, k: nat)
    requires !RunsOut(text, names) && k < |names| && FirstToken(text) == names[k]
    ensures names[k] < text
  {
    TokenIsPrefix(text);
    assert !(text <= names[k]);
  }

  lemma TailTerminated(s: seq<byte>, k: nat)
    requires k <= |s|
    ensures Terminated(s[k..], 0) <==> Terminated(s, k)
    ensures Terminated(s, k) ==> CString(s, k) == CString(s[k..], 0)
  {
    if Terminated(s, k) {
      CStringShift(s, k, 0);
    } else {
      assert forall n :: 0 <= n < |s[k..]| ==> s[k..][n] == s[k + n];
    }
  }
}
