/** The `.env` file: lines of `KEY=value`, rewritten whole at every set and read by first match. */
module EnvFile {
  import opened Outcomes
  import opened Text
  import opened TextLines

  // ---- reading and writing ----

  predicate Assigns(line: string, name: string) {
    IsPrefix(name + "=", line)
  }

  /** The value of the first line that assigns the key. */
  function Lookup(lines: seq<string>, key: string): Option<string> {
    if lines == [] then None
    else if Assigns(lines[0], key) then Some(lines[0][|key| + 1..])
    else Lookup(lines[1..], key)
  }

  /** The first assignment of the key replaced, or one added at the end. */
  function Updated(lines: seq<string>, key: string, value: string): seq<string> {
    if lines == [] then [key + "=" + value]
    else if Assigns(lines[0], key) then [key + "=" + value] + lines[1..]
    else [lines[0]] + Updated(lines[1..], key, value)
  }

  datatype Env = Env(file: Option<string>, environ: map<string, string>)

  function Lines(e: Env): seq<string> {
    if e.file.None? then [] else SplitLines(e.file.value)
  }

  function GetValue(e: Env, key: string): string {
    var found := Lookup(Lines(e), key);
    if found.Some? then found.value else if key in e.environ then e.environ[key] else ""
  }

  function Written(lines: seq<string>): string {
    Strip(Join(lines, "\n")) + "\n"
  }

  function SetValue(e: Env, key: string, value: string): Env {
    Env(Some(Written(Updated(Lines(e), key, value))), e.environ[key := value])
  }

  class EnvService {
    var file: Option<string>
    var environ: map<string, string>

    function Model(): Env
      reads this
    {
      Env(file, environ)
    }

    method ReadEnvLines() returns (lines: seq<string>)
      ensures lines == Lines(Model())
    {
      if file.None? {
        return [];
      }
      return SplitLines(file.value);
    }

    method GetEnvValue(key: string) returns (value: string)
      ensures value == GetValue(Model(), key)
    {
      var keyNorm := key + "=";
      var lines := ReadEnvLines();
      assert lines[0..] == lines;
      for i := 0 to |lines|
        invariant Lookup(lines, key) == Lookup(lines[i..], key)
      {
        assert lines[i..][1..] == lines[i + 1..];
        if IsPrefix(keyNorm, lines[i]) {
          return lines[i][|keyNorm|..];
        }
      }
      return if key in environ then environ[key] else "";
    }

    method SetEnvValue(key: string, value: string)
      modifies this
      ensures Model() == SetValue(old(Model()), key, value)
      ensures environ == old(environ)[key := value] && file.Some?
    {
      var lines := ReadEnvLines();
      lines := UpdateLines(lines, key, value);
      file := Some(Strip(Join(lines, "\n")) + "\n");
      environ := environ[key := value];
    }

    static method UpdateLines(lines: seq<string>, key: string, value: string) returns (updated: seq<string>)
      ensures updated == Updated(lines, key, value)
    {
      var keyNorm := key + "=";
      var line := key + "=" + value;
      assert lines[0..] == lines && [] + Updated(lines, key, value) == Updated(lines, key, value);
      for idx := 0 to |lines|
        invariant Updated(lines, key, value) == lines[..idx] + Updated(lines[idx..], key, value)
      {
        UpdatedNext(lines, idx, key, value);
        if IsPrefix(keyNorm, lines[idx]) {
          return lines[idx := line];
        }
      }
      return lines + [line];
    }
  }

  lemma UpdatedNext(lines: seq<string>, idx: nat, key: string, value: string)
    requires idx < |lines|
    ensures lines[..idx] + Updated(lines[idx..], key, value) ==
            if Assigns(lines[idx], key) then lines[idx := key + "=" + value]
            else lines[..idx + 1] + Updated(lines[idx + 1..], key, value)
  {
    assert lines[idx..][0] == lines[idx] && lines[idx..][1..] == lines[idx + 1..];
    if Assigns(lines[idx], key) {
      assert lines[idx := key + "=" + value] == lines[..idx] + ([key + "=" + value] + lines[idx + 1..]);
    } else {
      var rest := Updated(lines[idx + 1..], key, value);
      assert lines[..idx] + ([lines[idx]] + rest) == lines[..idx + 1] + rest;
    }
  }

  // ---- reading and updating, line by line ----

  /** The line does not begin with the name and an equals sign. */
  predicate Other(line: string, name: string) {
    |line| <= |name| || line[..|name|] != name || line[|name|] != '='
  }

  lemma OtherExactly(line: string, name: string)
    ensures Other(line, name) <==> !Assigns(line, name)
  {
    if |line| > |name| {
      assert line[..|name| + 1] == line[..|name|] + [line[|name|]];
      assert (name + "=")[..|name|] == name && line[..|name| + 1][..|name|] == line[..|name|];
    }
  }

  /** The first line for a key is read, and the ones after it never. */
  lemma {:induction false} FirstAssignmentIsRead(front: seq<string>, key: string, value: string, rest: seq<string>)
    requires forall i :: 0 <= i < |front| ==> Other(front[i], key)
    ensures Lookup(front + ([key + "=" + value] + rest), key) == Some(value)
  {
    NewLine(key, value);
    var tail := [key + "=" + value] + rest;
    if front == [] {
      assert front + tail == tail && tail[0] == key + "=" + value;
    } else {
      OtherExactly(front[0], key);
      FirstAssignmentIsRead(front[1..], key, value, rest);
      assert (front + tail)[0] == front[0] && (front + tail)[1..] == front[1..] + tail;
    }
  }

  lemma {:induction false} NoAssignmentIsRead(lines: seq<string>, key: string)
    requires forall i :: 0 <= i < |lines| ==> Other(lines[i], key)
    ensures Lookup(lines, key) == None
  {
    if lines != [] {
      OtherExactly(lines[0], key);
      NoAssignmentIsRead(lines[1..], key);
    }
  }

  /** From the text of the file: its first line gives the value if it is for the key, and is passed over if not. */
  lemma FirstLineIsRead(environ: map<string, string>, key: string, value: string, line: string, rest: string)
    requires OneLine(key) && OneLine(value) && OneLine(line)
    ensures GetValue(Env(Some(key + "=" + value + "\n" + rest), environ), key) == value
    ensures Other(line, key) ==>
              GetValue(Env(Some(line + "\n" + rest), environ), key) == GetValue(Env(Some(rest), environ), key)
  {
    var first := key + "=" + value;
    assert OneLine(first) by {
      assert forall c :: c in first ==> c in key || c == '=' || c in value;
    }
    CutLine(first, rest);
    NewLine(key, value);
    CutLine(line, rest);
    OtherExactly(line, key);
  }

  /** Without a line for it a key reads as its environment variable, or as empty. */
  lemma EnvironIsNext(e: Env, key: string)
    requires e.file.Some? ==> forall l :: l in SplitLines(e.file.value) ==> Other(l, key)
    ensures GetValue(e, key) == if key in e.environ then e.environ[key] else ""
  {
    NoAssignmentIsRead(Lines(e), key);
  }

  /** The first line for the key is replaced where it stands. */
  lemma FirstAssignmentIsReplaced(lines: seq<string>, i: nat, key: string, value: string)
    requires i < |lines| && !Other(lines[i], key) && forall j :: 0 <= j < i ==> Other(lines[j], key)
    ensures Updated(lines, key, value) == lines[i := key + "=" + value]
  {
    ReplacedFrom(lines, 0, i, key, value);
    assert lines[..0] + Updated(lines[0..], key, value) == Updated(lines, key, value) by {
      assert lines[0..] == lines;
    }
  }

  lemma {:induction false} ReplacedFrom(lines: seq<string>, from: nat, i: nat, key: string, value: string)
    requires from <= i < |lines| && !Other(lines[i], key) && forall j :: 0 <= j < i ==> Other(lines[j], key)
    ensures lines[..from] + Updated(lines[from..], key, value) == lines[i := key + "=" + value]
    decreases i - from
  {
    UpdatedNext(lines, from, key, value);
    OtherExactly(lines[from], key);
    if from < i {
      ReplacedFrom(lines, from + 1, i, key, value);
    }
  }

  /** Without one the line is added at the end. */
  lemma {:induction false} NewAssignmentIsAdded(lines: seq<string>, key: string, value: string)
    requires forall i :: 0 <= i < |lines| ==> Other(lines[i], key)
    ensures Updated(lines, key, value) == lines + [key + "=" + value]
  {
    if lines != [] {
      OtherExactly(lines[0], key);
      NewAssignmentIsAdded(lines[1..], key, value);
      assert [lines[0]] + (lines[1..] + [key + "=" + value]) == lines + [key + "=" + value];
    }
  }

  /** Trimmed lines are written as they are, each ended by a line feed. */
  lemma WrittenText(lines: seq<string>)
    requires lines != [] && Trimmed(lines)
    ensures Written(lines) == Join(lines, "\n") + "\n"
  {
    TrimLastStays(lines);
    StripTrims(Join(lines, "\n"));
    JoinTrimFirst(lines);
    JoinTrimLast(TrimFirst(lines));
    TrimIsTrimmed(lines);
  }

  // ---- the file refines a map ----

  /** Names that a line can carry: no equals sign, no break, no blank in front. */
  predicate GoodKey(key: string) {
    '=' !in key && OneLine(key) && (key != "" ==> !IsSpace(key[0]))
  }

  /** Values that a line can carry: no break, no blank at the end. */
  predicate GoodValue(value: string) {
    OneLine(value) && (value != "" ==> !IsSpace(value[|value| - 1]))
  }

  /** A trimmed list of lines is read back as it was written. */
  lemma WrittenReads(lines: seq<string>)
    requires lines != [] && Trimmed(lines) && forall l :: l in lines ==> OneLine(l)
    ensures SplitLines(Written(lines)) == lines
  {
    TrimLastStays(lines);
    StrippedLines(lines);
    TrimIsTrimmed(lines);
  }

  lemma {:induction false} UpdatedLines(lines: seq<string>, key: string, value: string)
    requires forall l :: l in lines ==> OneLine(l)
    requires OneLine(key) && OneLine(value)
    ensures Updated(lines, key, value) != []
    ensures forall l :: l in Updated(lines, key, value) ==> OneLine(l)
  {
    assert forall c :: c in key + "=" + value ==> c in key || c == '=' || c in value;
    if lines != [] {
      assert forall l :: l in lines[1..] ==> l in lines;
      UpdatedLines(lines[1..], key, value);
    }
  }

  lemma {:induction false} UpdatedEnds(lines: seq<string>, key: string, value: string)
    ensures var u, line := Updated(lines, key, value), key + "=" + value;
            && u != []
            && (u[0] == line || (lines != [] && u[0] == lines[0]))
            && (u[|u| - 1] == line || (lines != [] && u[|u| - 1] == lines[|lines| - 1]))
  {
    if lines != [] && !Assigns(lines[0], key) {
      UpdatedEnds(lines[1..], key, value);
    }
  }

  lemma UpdatedTrimmed(lines: seq<string>, key: string, value: string)
    requires Trimmed(lines) && GoodKey(key) && GoodValue(value)
    ensures Trimmed(Updated(lines, key, value))
  {
    UpdatedEnds(lines, key, value);
    var line := key + "=" + value;
    assert line[0] == if key == "" then '=' else key[0];
    assert line[|line| - 1] == if value == "" then '=' else value[|value| - 1];
  }

  lemma OneKeyPerLine(a: string, b: string, line: string)
    requires '=' !in a && '=' !in b && Assigns(line, a) && Assigns(line, b)
    ensures a == b
  {
    assert line[|a|] == (a + "=")[|a|] == '=' && line[|b|] == (b + "=")[|b|] == '=';
    assert forall i :: 0 <= i < |a| ==> line[i] == (a + "=")[i] == a[i];
    assert forall i :: 0 <= i < |b| ==> line[i] == (b + "=")[i] == b[i];
    assert |a| == |b|;
    assert a == line[..|a|] && b == line[..|b|];
  }

  lemma NewLine(key: string, value: string)
    ensures Assigns(key + "=" + value, key) && (key + "=" + value)[|key| + 1..] == value
  {
  }

  lemma {:induction false} LookupUpdated(lines: seq<string>, key: string, value: string, other: string)
    requires '=' !in key && '=' !in other
    ensures Lookup(Updated(lines, key, value), other) == if other == key then Some(value) else Lookup(lines, other)
  {
    NewLine(key, value);
    var line := key + "=" + value;
    if other != key && Assigns(line, other) {
      OneKeyPerLine(other, key, line);
    }
    if lines == [] {
      assert [line][1..] == [];
    } else if Assigns(lines[0], key) {
      assert ([line] + lines[1..])[1..] == lines[1..];
      if other != key && Assigns(lines[0], other) {
        OneKeyPerLine(other, key, lines[0]);
      }
    } else {
      LookupUpdated(lines[1..], key, value, other);
      assert ([lines[0]] + Updated(lines[1..], key, value))[1..] == Updated(lines[1..], key, value);
    }
  }

  lemma SetReads(e: Env, key: string, value: string)
    requires Trimmed(Lines(e)) && GoodKey(key) && GoodValue(value)
    ensures Lines(SetValue(e, key, value)) == Updated(Lines(e), key, value)
    ensures Trimmed(Lines(SetValue(e, key, value)))
  {
    if e.file.Some? {
      LinesAreSingle(e.file.value);
    }
    UpdatedLines(Lines(e), key, value);
    UpdatedTrimmed(Lines(e), key, value);
    WrittenReads(Updated(Lines(e), key, value));
  }

  /** One set is one map update: the key reads as the value and every other key as before. */
  lemma SetIsMapUpdate(e: Env, key: string, value: string, other: string)
    requires Trimmed(Lines(e)) && GoodKey(key) && GoodValue(value) && '=' !in other
    ensures GetValue(SetValue(e, key, value), other) == if other == key then value else GetValue(e, other)
  {
    SetReads(e, key, value);
    LookupUpdated(Lines(e), key, value, other);
  }

  datatype Set = Set(key: string, value: string)

  function AfterSets(e: Env, sets: seq<Set>): Env {
    if sets == [] then e
    else SetValue(AfterSets(e, sets[..|sets| - 1]), sets[|sets| - 1].key, sets[|sets| - 1].value)
  }

  /** The dictionary that the sets describe. */
  function MapOf(sets: seq<Set>): map<string, string> {
    if sets == [] then map[] else MapOf(sets[..|sets| - 1])[sets[|sets| - 1].key := sets[|sets| - 1].value]
  }

  /** Over any sequence of sets the file refines a map: a key reads as last set, or as it did at the start. */
  lemma {:induction false} FileRefinesMap(e: Env, sets: seq<Set>, key: string)
    requires Trimmed(Lines(e)) && '=' !in key
    requires forall s :: s in sets ==> GoodKey(s.key) && GoodValue(s.value)
    ensures Trimmed(Lines(AfterSets(e, sets)))
    ensures GetValue(AfterSets(e, sets), key) == if key in MapOf(sets) then MapOf(sets)[key] else GetValue(e, key)
  {
    if sets != [] {
      var before, last := sets[..|sets| - 1], sets[|sets| - 1];
      assert sets == before + [last];
      assert last in sets && forall s :: s in before ==> s in sets;
      FileRefinesMap(e, before, key);
      SetReads(AfterSets(e, before), last.key, last.value);
      SetIsMapUpdate(AfterSets(e, before), last.key, last.value, key);
    }
  }

  // ---- any file at all ----

  /** No equals sign and no blank in front. */
  predicate ReadableName(name: string) {
    '=' !in name && (name != "" ==> !IsSpace(name[0]))
  }

  /** The value that moving the first line with any text to the margin brings to light for the name. */
  function Exposed(lines: seq<string>, name: string): Option<string> {
    if lines == [] then None
    else if Blank(lines[0]) then Exposed(lines[1..], name)
    else if IsSpace(lines[0][0]) && Assigns(LeftTrimmed(lines[0]), name) then Some(LeftTrimmed(lines[0])[|name| + 1..])
    else None
  }

  /** The line that the name is read from is the last one with any text, and it ends with a blank. */
  predicate LastCut(lines: seq<string>, name: string) {
    lines != [] &&
    if Assigns(lines[0], name) then IsSpace(lines[0][|lines[0]| - 1]) && AllBlank(lines[1..])
    else LastCut(lines[1..], name)
  }

  lemma AssignsIsText(line: string, name: string)
    requires Assigns(line, name)
    ensures !Blank(line)
    ensures ReadableName(name) ==> !IsSpace(line[0])
  {
    var v := line[|name| + 1..];
    assert line == name + ("=" + v);
    BlankAppend(name, "=" + v);
    assert line[0] == (name + "=")[0];
  }

  lemma {:induction false} ReadTrimFirst(lines: seq<string>, name: string)
    requires ReadableName(name)
    ensures var e := Exposed(lines, name); Lookup(TrimFirst(lines), name) == if e.Some? then e else Lookup(lines, name)
    ensures Exposed(lines, name).None? ==> LastCut(TrimFirst(lines), name) == LastCut(lines, name)
  {
    if lines != [] {
      if Assigns(lines[0], name) {
        AssignsIsText(lines[0], name);
      }
      if Blank(lines[0]) {
        ReadTrimFirst(lines[1..], name);
      } else {
        assert TrimFirst(lines)[1..] == lines[1..];
      }
    }
  }

  lemma CutKeepsName(line: string, name: string)
    requires Assigns(line, name)
    ensures RightTrimmed(line) == name + "=" + RightTrimmed(line[|name| + 1..])
  {
    var v := line[|name| + 1..];
    assert line == (name + "=") + v;
    RightTrimAppend(name + "=", v);
    RightTrimBlank(v);
  }

  lemma CutAssignment(line: string, name: string)
    ensures Assigns(RightTrimmed(line), name) <==> Assigns(line, name)
    ensures Assigns(line, name) ==> RightTrimmed(line)[|name| + 1..] == RightTrimmed(line[|name| + 1..])
  {
    RightTrimPrefix(line);
    if Assigns(line, name) {
      CutKeepsName(line, name);
      NewLine(name, RightTrimmed(line[|name| + 1..]));
    }
  }

  lemma {:induction false} ReadTrimLast(lines: seq<string>, name: string)
    ensures Lookup(TrimLast(lines), name).Some? == Lookup(lines, name).Some?
    ensures Lookup(lines, name).Some? ==>
              var v := Lookup(lines, name).value;
              && Lookup(TrimLast(lines), name).value == (if LastCut(lines, name) then RightTrimmed(v) else v)
              && (LastCut(lines, name) ==> RightTrimmed(v) != v)
    ensures LastCut(lines, name) ==> Lookup(lines, name).Some?
  {
    if AllBlank(lines) {
      NothingInBlanks(lines, name);
    } else {
      CutAssignment(lines[0], name);
      if Assigns(lines[0], name) {
        AssignsIsText(lines[0], name);
        LastOfValue(lines[0], name);
      }
      ReadTrimLast(lines[1..], name);
    }
  }

  lemma LastOfValue(line: string, name: string)
    requires Assigns(line, name)
    ensures IsSpace(line[|line| - 1]) <==> RightTrimmed(line[|name| + 1..]) != line[|name| + 1..]
  {
    var v := line[|name| + 1..];
    if v == "" {
      assert line[|line| - 1] == (name + "=")[|name|] == '=';
    } else {
      assert line[|line| - 1] == v[|v| - 1];
      RightTrimPrefix(v);
    }
  }

  lemma {:induction false} NothingInBlanks(lines: seq<string>, name: string)
    requires AllBlank(lines)
    ensures Lookup(lines, name).None? && !LastCut(lines, name)
  {
    if lines != [] {
      if Assigns(lines[0], name) {
        AssignsIsText(lines[0], name);
      }
      NothingInBlanks(lines[1..], name);
    }
  }

  lemma NewLineIsText(key: string, value: string)
    requires GoodKey(key) && GoodValue(value)
    ensures var line := key + "=" + value; !Blank(line) && !IsSpace(line[0]) && !IsSpace(line[|line| - 1])
  {
    var line := key + "=" + value;
    NewLine(key, value);
    AssignsIsText(line, key);
    assert line[|line| - 1] == if value == "" then '=' else value[|value| - 1];
  }

  /** The set itself exposes nothing, leaves text in the file, and its own line is never cut. */
  lemma {:induction false} SetKeepsText(lines: seq<string>, key: string, value: string, name: string)
    requires GoodKey(key) && GoodValue(value)
    ensures !AllBlank(Updated(lines, key, value)) && !LastCut(Updated(lines, key, value), key)
    ensures Exposed(Updated(lines, key, value), name) == Exposed(lines, name)
    ensures Exposed(lines, name).Some? ==> !LastCut(TrimFirst(Updated(lines, key, value)), name)
  {
    NewLineIsText(key, value);
    NewLine(key, value);
    if lines != [] {
      if Assigns(lines[0], key) {
        AssignsIsText(lines[0], key);
      } else {
        var u := Updated(lines, key, value);
        assert u[1..] == Updated(lines[1..], key, value);
        SetKeepsText(lines[1..], key, value, name);
        if !Blank(lines[0]) {
          assert TrimFirst(u)[1..] == u[1..];
        }
      }
    }
  }

  lemma TrimmedReadsAs(lines: seq<string>, key: string, value: string, name: string)
    requires GoodKey(key) && GoodValue(value) && ReadableName(name)
    ensures LastCut(Updated(lines, key, value), name) ==> Lookup(Updated(lines, key, value), name).Some?
    ensures var u := Updated(lines, key, value);
            Lookup(Trim(u), name) ==
            if Exposed(lines, name).Some? then Exposed(lines, name)
            else if LastCut(u, name) then Some(RightTrimmed(Lookup(u, name).value))
            else Lookup(u, name)
    ensures !LastCut(Updated(lines, key, value), key)
  {
    var u := Updated(lines, key, value);
    SetKeepsText(lines, key, value, name);
    ReadTrimFirst(u, name);
    ReadTrimLast(TrimFirst(u), name);
    ReadTrimLast(u, name);
  }

  lemma SetTrims(e: Env, key: string, value: string)
    requires GoodKey(key) && GoodValue(value)
    ensures Lines(SetValue(e, key, value)) == Trim(Updated(Lines(e), key, value))
    ensures Trimmed(Lines(SetValue(e, key, value)))
  {
    if e.file.Some? {
      LinesAreSingle(e.file.value);
    }
    UpdatedLines(Lines(e), key, value);
    SetKeepsText(Lines(e), key, value, key);
    StrippedLines(Updated(Lines(e), key, value));
    TrimIsTrimmed(Updated(Lines(e), key, value));
  }

  /**
    What every name reads as after a set, whatever the file was: the value that the strip exposes for it;
    else, for the key, the value that was set; else the value from before, cut if its line ends the file.
   */
  lemma SetReadsAs(e: Env, key: string, value: string, name: string)
    requires GoodKey(key) && GoodValue(value) && ReadableName(name)
    ensures GetValue(SetValue(e, key, value), name) ==
            var exposed := Exposed(Lines(e), name);
            if exposed.Some? then exposed.value
            else if name == key then value
            else if LastCut(Updated(Lines(e), key, value), name) then RightTrimmed(GetValue(e, name))
            else GetValue(e, name)
    ensures name != key && LastCut(Updated(Lines(e), key, value), name) ==>
            RightTrimmed(GetValue(e, name)) != GetValue(e, name)
  {
    SetTrims(e, key, value);
    TrimmedReadsAs(Lines(e), key, value, name);
    LookupUpdated(Lines(e), key, value, name);
    ReadTrimLast(Updated(Lines(e), key, value), name);
  }

  /** The key reads as the value exactly unless the strip exposes another one for it. */
  lemma SetTakesExactly(e: Env, key: string, value: string)
    requires GoodKey(key) && GoodValue(value)
    ensures GetValue(SetValue(e, key, value), key) == value
       <==> Exposed(Lines(e), key).None? || Exposed(Lines(e), key).value == value
  {
    SetReadsAs(e, key, value, key);
  }

  /**
    Another name reads as before exactly unless the strip exposes a different value for it or, exposing
    none, cuts the value that it was read from.
   */
  lemma OthersStayExactly(e: Env, key: string, value: string, name: string)
    requires GoodKey(key) && GoodValue(value) && ReadableName(name) && name != key
    ensures GetValue(SetValue(e, key, value), name) == GetValue(e, name)
       <==> if Exposed(Lines(e), name).Some? then Exposed(Lines(e), name).value == GetValue(e, name)
            else !LastCut(Updated(Lines(e), key, value), name)
  {
    SetReadsAs(e, key, value, name);
  }

  /**
    Only the first set can go wrong: whatever the file was, the sets after it are map updates of what the
    first one left.
   */
  lemma LaterSetsRefineMap(e: Env, first: Set, sets: seq<Set>, name: string)
    requires ReadableName(name) && GoodKey(first.key) && GoodValue(first.value)
    requires forall s :: s in sets ==> GoodKey(s.key) && GoodValue(s.value)
    ensures var start := SetValue(e, first.key, first.value);
            GetValue(AfterSets(start, sets), name)
                == if name in MapOf(sets) then MapOf(sets)[name] else GetValue(start, name)
  {
    SetTrims(e, first.key, first.value);
    FileRefinesMap(SetValue(e, first.key, first.value), sets, name);
  }

  lemma OneLineFile(line: string)
    requires OneLine(line)
    ensures SplitLines(line + "\n") == [line]
  {
    SplitJoined([line]);
  }

  lemma IndentedLine(key: string, was: string)
    requires GoodKey(key) && GoodValue(was)
    ensures var indented := " " + (key + "=" + was);
            OneLine(indented) && Lookup([indented], key) == None && Exposed([indented], key) == Some(was)
  {
    var line := key + "=" + was;
    var indented: string := " " + line;
    NewLineIsText(key, was);
    NewLine(key, was);
    assert indented[1..] == line && IsSpace(indented[0]);
    assert OneLine(indented) by {
      assert forall c :: c in indented ==> c == ' ' || c in key || c == '=' || c in was;
    }
    assert LeftTrimmed(indented) == line;
    if Assigns(indented, key) {
      AssignsIsText(indented, key);
    }
    var none: seq<string> := [];
    assert [indented][1..] == none;
    assert Lookup(none, key) == None;
  }

  /**
    With an indented first line a set is lost: the whole-file strip moves that line to the margin, where
    it is read before the line that the set added.
   */
  lemma IndentedLineWins(key: string, was: string, value: string)
    requires GoodKey(key) && GoodValue(was) && GoodValue(value)
    ensures var e := Env(Some(" " + (key + "=" + was) + "\n"), map[]);
            && GetValue(e, key) == ""
            && GetValue(SetValue(e, key, value), key) == was
  {
    var indented := " " + (key + "=" + was);
    IndentedLine(key, was);
    OneLineFile(indented);
    SetReadsAs(Env(Some(indented + "\n"), map[]), key, value, key);
  }

  lemma LastLineCut(key: string, was: string, value: string, other: string, v: string)
    requires GoodKey(key) && GoodKey(other) && key != other
    ensures var a, b := key + "=" + was, other + "=" + (v + " ");
            && Lookup([a, b], other) == Some(v + " ") && Exposed([a, b], other) == None
            && LastCut(Updated([a, b], key, value), other)
  {
    var a, b, line := key + "=" + was, other + "=" + (v + " "), key + "=" + value;
    var none: seq<string> := [];
    assert [a, b][1..] == [b] && [line, b][1..] == [b] && [b][1..] == none;
    NewLine(key, was);
    NewLine(key, value);
    NewLine(other, v + " ");
    AssignsIsText(a, key);
    if Assigns(a, other) {
      OneKeyPerLine(other, key, a);
    }
    if Assigns(line, other) {
      OneKeyPerLine(other, key, line);
    }
    assert Updated([a, b], key, value) == [line, b];
  }

  lemma TwoLineFile(a: string, b: string)
    requires OneLine(a) && OneLine(b)
    ensures SplitLines(a + "\n" + b + "\n") == [a, b]
  {
    assert [a, b][1..] == [b];
    assert Join([a, b], "\n") == a + "\n" + b;
    SplitJoined([a, b]);
  }

  lemma BlankEnd(v: string)
    requires GoodValue(v)
    ensures RightTrimmed(v + " ") == v
  {
    assert Blank(" ") by {
      assert " "[1..] == "";
    }
    RightTrimAppend(v, " ");
  }

  lemma TwoLinesAreSingle(key: string, was: string, other: string, v: string)
    requires GoodKey(key) && OneLine(was) && GoodKey(other) && OneLine(v)
    ensures OneLine(key + "=" + was) && OneLine(other + "=" + (v + " "))
  {
    assert forall c :: c in key + "=" + was ==> c in key || c == '=' || c in was;
    assert forall c :: c in other + "=" + (v + " ") ==> c in other || c == '=' || c in v || c == ' ';
  }

  /** A set of one key cuts the value of another: the strip takes the blank that ends the last line. */
  lemma TrailingBlankIsCut(key: string, was: string, value: string, other: string, v: string)
    requires GoodKey(key) && OneLine(was) && GoodValue(value) && key != other
    requires GoodKey(other) && GoodValue(v)
    ensures var e := Env(Some(key + "=" + was + "\n" + (other + "=" + (v + " ")) + "\n"), map[]);
            && GetValue(e, other) == v + " "
            && GetValue(SetValue(e, key, value), other) == v
  {
    var a, b := key + "=" + was, other + "=" + (v + " ");
    TwoLinesAreSingle(key, was, other, v);
    TwoLineFile(a, b);
    LastLineCut(key, was, value, other, v);
    BlankEnd(v);
    SetReadsAs(Env(Some(a + "\n" + b + "\n"), map[]), key, value, other);
  }
}
