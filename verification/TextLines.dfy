/** Texts as lists of lines, and what stripping a whole text does to its lines. */
module TextLines {
  import opened Text

  // ---- lines ----

  /** The characters at which `str.splitlines` ends a line. */
  predicate IsBreak(c: char) {
    '\n' <= c <= '\r' || '\U{001C}' <= c <= '\U{001E}' || c == '\U{0085}' || c == '\U{2028}' || c == '\U{2029}'
  }

  lemma BreaksAre(c: char)
    ensures IsBreak(c) <==> c as int in {10, 11, 12, 13, 28, 29, 30, 133, 8232, 8233}
  {
  }

  predicate OneLine(s: string) {
    forall c :: c in s ==> !IsBreak(c)
  }

  /** The text before the first break. */
  function FirstLine(s: string): (line: string)
    ensures |line| <= |s|
  {
    if s == "" || IsBreak(s[0]) then "" else [s[0]] + FirstLine(s[1..])
  }

  /** The text after the first break; a carriage return and a line feed are one break. */
  function RestLines(s: string): (rest: string)
    ensures |rest| <= |s| && (s != "" ==> |rest| < |s|)
  {
    if s == "" then ""
    else if !IsBreak(s[0]) then RestLines(s[1..])
    else if s[0] == '\r' && |s| > 1 && s[1] == '\n' then s[2..]
    else s[1..]
  }

  function SplitLines(s: string): seq<string>
    decreases |s|
  {
    if s == "" then [] else [FirstLine(s)] + SplitLines(RestLines(s))
  }

  lemma {:induction false} FirstLineIsOne(s: string)
    ensures OneLine(FirstLine(s))
  {
    if s != "" && !IsBreak(s[0]) {
      FirstLineIsOne(s[1..]);
    }
  }

  lemma {:induction false} LinesAreSingle(s: string)
    ensures forall l :: l in SplitLines(s) ==> OneLine(l)
    decreases |s|
  {
    if s != "" {
      FirstLineIsOne(s);
      LinesAreSingle(RestLines(s));
    }
  }

  lemma {:induction false} CutLine(line: string, rest: string)
    requires OneLine(line)
    ensures FirstLine(line + "\n" + rest) == line && RestLines(line + "\n" + rest) == rest
  {
    var s := line + "\n" + rest;
    if line != "" {
      assert s[1..] == line[1..] + "\n" + rest;
      assert line[0] in line;
      CutLine(line[1..], rest);
      assert [line[0]] + line[1..] == line;
    } else {
      assert s == ['\n'] + rest;
      assert s[1..] == rest;
    }
  }

  lemma {:induction false} SplitJoined(lines: seq<string>)
    requires lines != [] && forall l :: l in lines ==> OneLine(l)
    ensures SplitLines(Join(lines, "\n") + "\n") == lines
  {
    assert lines[0] in lines;
    if |lines| == 1 {
      CutLine(lines[0], "");
      assert lines[0] + "\n" + "" == lines[0] + "\n";
      assert SplitLines("") == [];
    } else {
      var rest := Join(lines[1..], "\n") + "\n";
      SplitJoined(lines[1..]);
      CutLine(lines[0], rest);
      assert Join(lines, "\n") + "\n" == lines[0] + "\n" + rest;
    }
  }

  // ---- what a strip does to the lines ----

  /** Neither the first line begins nor the last line ends with a blank, and neither is empty. */
  predicate Trimmed(lines: seq<string>) {
    lines == [] ||
    var first, last := lines[0], lines[|lines| - 1];
    first != "" && !IsSpace(first[0]) && last != "" && !IsSpace(last[|last| - 1])
  }

  predicate AllBlank(lines: seq<string>) {
    lines == [] || (Blank(lines[0]) && AllBlank(lines[1..]))
  }

  function LeftTrimmed(s: string): string {
    if s != "" && IsSpace(s[0]) then LeftTrimmed(s[1..]) else s
  }

  function RightTrimmed(s: string): string {
    if s != "" && IsSpace(s[|s| - 1]) then RightTrimmed(s[..|s| - 1]) else s
  }

  /** Leading blank lines dropped, and the first other line moved to the margin. */
  function TrimFirst(lines: seq<string>): seq<string> {
    if lines == [] then []
    else if Blank(lines[0]) then TrimFirst(lines[1..])
    else [LeftTrimmed(lines[0])] + lines[1..]
  }

  /** Trailing blank lines dropped, and the end of the last other line cut. */
  function TrimLast(lines: seq<string>): seq<string> {
    if AllBlank(lines) then []
    else if AllBlank(lines[1..]) then [RightTrimmed(lines[0])]
    else [lines[0]] + TrimLast(lines[1..])
  }

  function Trim(lines: seq<string>): seq<string> {
    TrimLast(TrimFirst(lines))
  }

  lemma {:induction false} StripTrims(s: string)
    ensures Strip(s) == RightTrimmed(LeftTrimmed(s))
  {
    if s != "" {
      if IsSpace(s[0]) {
        StripTrims(s[1..]);
      } else if IsSpace(s[|s| - 1]) {
        StripTrims(s[..|s| - 1]);
      }
    }
  }

  lemma {:induction false} LeftTrimAppend(p: string, t: string)
    ensures LeftTrimmed(p + t) == if Blank(p) then LeftTrimmed(t) else LeftTrimmed(p) + t
  {
    if p == "" {
      assert p + t == t;
    } else if IsSpace(p[0]) {
      LeftTrimAppend(p[1..], t);
      assert (p + t)[1..] == p[1..] + t;
    }
  }

  lemma {:induction false} BlankSnoc(s: string, c: char)
    ensures Blank(s + [c]) <==> Blank(s) && IsSpace(c)
  {
    if s == "" {
      assert [c][1..] == "" && s + [c] == [c];
    } else {
      BlankSnoc(s[1..], c);
      assert (s + [c])[1..] == s[1..] + [c];
    }
  }

  lemma {:induction false} RightTrimAppend(p: string, t: string)
    ensures RightTrimmed(p + t) == if Blank(t) then RightTrimmed(p) else p + RightTrimmed(t)
  {
    if t == "" {
      assert p + t == p;
    } else {
      var front, c := t[..|t| - 1], t[|t| - 1];
      assert t == front + [c];
      BlankSnoc(front, c);
      assert (p + t)[..|p + t| - 1] == p + front;
      RightTrimAppend(p, front);
    }
  }

  lemma {:induction false} BlankAppend(a: string, b: string)
    ensures Blank(a + b) <==> Blank(a) && Blank(b)
  {
    if a == "" {
      assert a + b == b;
    } else {
      BlankAppend(a[1..], b);
      assert (a + b)[1..] == a[1..] + b;
    }
  }

  lemma JoinTwo(lines: seq<string>)
    requires |lines| > 1
    ensures Join(lines, "\n") == lines[0] + ("\n" + Join(lines[1..], "\n"))
    ensures Blank("\n" + Join(lines[1..], "\n")) <==> Blank(Join(lines[1..], "\n"))
  {
    BlankAppend("\n", Join(lines[1..], "\n"));
    assert "\n"[1..] == "";
  }

  lemma {:induction false} JoinBlank(lines: seq<string>)
    ensures Blank(Join(lines, "\n")) <==> AllBlank(lines)
  {
    if |lines| > 1 {
      JoinTwo(lines);
      JoinBlank(lines[1..]);
      BlankAppend(lines[0], "\n" + Join(lines[1..], "\n"));
    } else if |lines| == 1 {
      assert lines[1..] == [];
    }
  }

  lemma {:induction false} JoinTrimFirst(lines: seq<string>)
    requires !AllBlank(lines)
    ensures LeftTrimmed(Join(lines, "\n")) == Join(TrimFirst(lines), "\n")
    ensures !AllBlank(TrimFirst(lines))
  {
    LeftTrimBlank(lines[0]);
    if |lines| > 1 {
      var rest := "\n" + Join(lines[1..], "\n");
      JoinTwo(lines);
      LeftTrimAppend(lines[0], rest);
      if Blank(lines[0]) {
        LeftTrimAppend("\n", Join(lines[1..], "\n"));
        assert Blank("\n") by {
          assert "\n"[1..] == "";
        }
        JoinTrimFirst(lines[1..]);
      } else {
        var first := TrimFirst(lines);
        assert first[1..] == lines[1..];
        JoinTwo(first);
      }
    } else {
      assert lines[1..] == [];
    }
  }

  lemma {:induction false} LeftTrimBlank(s: string)
    ensures Blank(LeftTrimmed(s)) <==> Blank(s)
    ensures !Blank(s) ==> LeftTrimmed(s) != "" && !IsSpace(LeftTrimmed(s)[0])
    ensures forall c :: c in LeftTrimmed(s) ==> c in s
    ensures LeftTrimmed(s) != "" ==> LeftTrimmed(s)[|LeftTrimmed(s)| - 1] == s[|s| - 1]
  {
    if s != "" && IsSpace(s[0]) {
      LeftTrimBlank(s[1..]);
    }
  }

  lemma {:induction false} JoinTrimLast(lines: seq<string>)
    requires !AllBlank(lines)
    ensures RightTrimmed(Join(lines, "\n")) == Join(TrimLast(lines), "\n") && TrimLast(lines) != []
  {
    if |lines| > 1 {
      JoinTwo(lines);
      JoinBlank(lines[1..]);
      RightTrimAppend(lines[0], "\n" + Join(lines[1..], "\n"));
      if !AllBlank(lines[1..]) {
        JoinTrimLast(lines[1..]);
        RightTrimAppend("\n", Join(lines[1..], "\n"));
        var last := TrimLast(lines);
        assert last[1..] == TrimLast(lines[1..]);
        JoinTwo(last);
      }
    } else {
      assert lines[1..] == [];
    }
  }

  lemma {:induction false} RightTrimPrefix(s: string)
    ensures IsPrefix(RightTrimmed(s), s)
    ensures forall c :: c in RightTrimmed(s) ==> c in s
    ensures RightTrimmed(s) != "" ==> !IsSpace(RightTrimmed(s)[|RightTrimmed(s)| - 1])
  {
    if s != "" && IsSpace(s[|s| - 1]) {
      RightTrimPrefix(s[..|s| - 1]);
    }
  }

  lemma {:induction false} TrimFirstSingle(lines: seq<string>)
    requires forall l :: l in lines ==> OneLine(l)
    ensures forall l :: l in TrimFirst(lines) ==> OneLine(l)
  {
    if lines != [] {
      assert lines[0] in lines && forall l :: l in lines[1..] ==> l in lines;
      if Blank(lines[0]) {
        TrimFirstSingle(lines[1..]);
      } else {
        LeftTrimBlank(lines[0]);
      }
    }
  }

  lemma {:induction false} TrimLastSingle(lines: seq<string>)
    requires forall l :: l in lines ==> OneLine(l)
    ensures forall l :: l in TrimLast(lines) ==> OneLine(l)
  {
    if !AllBlank(lines) {
      assert lines[0] in lines && forall l :: l in lines[1..] ==> l in lines;
      TrimLastSingle(lines[1..]);
      RightTrimPrefix(lines[0]);
    }
  }

  /** A text of lines that are not all blank, stripped and ended by a break, has the trimmed lines. */
  lemma StrippedLines(lines: seq<string>)
    requires !AllBlank(lines) && forall l :: l in lines ==> OneLine(l)
    ensures SplitLines(Strip(Join(lines, "\n")) + "\n") == Trim(lines)
  {
    StripTrims(Join(lines, "\n"));
    JoinTrimFirst(lines);
    JoinTrimLast(TrimFirst(lines));
    TrimFirstSingle(lines);
    TrimLastSingle(TrimFirst(lines));
    SplitJoined(Trim(lines));
  }

  predicate EndsTrimmed(lines: seq<string>) {
    lines == [] || var last := lines[|lines| - 1]; last != "" && !IsSpace(last[|last| - 1])
  }

  lemma {:induction false} TrimLastStays(lines: seq<string>)
    requires EndsTrimmed(lines)
    ensures TrimLast(lines) == lines && (lines != [] ==> !AllBlank(lines))
  {
    if lines != [] {
      var last := lines[|lines| - 1];
      assert last == last[..|last| - 1] + [last[|last| - 1]];
      BlankSnoc(last[..|last| - 1], last[|last| - 1]);
      TrimLastStays(lines[1..]);
    }
  }

  lemma {:induction false} TrimLastEnds(lines: seq<string>)
    requires !AllBlank(lines)
    ensures TrimLast(lines) != [] && EndsTrimmed(TrimLast(lines))
    ensures !Blank(lines[0]) ==> TrimLast(lines)[0] != "" && TrimLast(lines)[0][0] == lines[0][0]
  {
    RightTrimPrefix(lines[0]);
    RightTrimBlank(lines[0]);
    if !AllBlank(lines[1..]) {
      TrimLastEnds(lines[1..]);
    }
  }

  lemma {:induction false} RightTrimBlank(s: string)
    ensures RightTrimmed(s) == "" <==> Blank(s)
  {
    if s != "" {
      var front, c := s[..|s| - 1], s[|s| - 1];
      assert s == front + [c];
      BlankSnoc(front, c);
      RightTrimBlank(front);
    }
  }

  /** Trimming trims, and leaves trimmed lines alone. */
  lemma TrimIsTrimmed(lines: seq<string>)
    requires !AllBlank(lines)
    ensures Trim(lines) != [] && Trimmed(Trim(lines))
    ensures Trimmed(lines) ==> Trim(lines) == lines
  {
    JoinTrimFirst(lines);
    FirstAtMargin(lines);
    TrimLastEnds(TrimFirst(lines));
    if Trimmed(lines) {
      TrimLastStays(lines);
      assert [lines[0]] + lines[1..] == lines;
    }
  }

  lemma {:induction false} FirstAtMargin(lines: seq<string>)
    requires !AllBlank(lines)
    ensures var w := TrimFirst(lines); w != [] && !Blank(w[0]) && !IsSpace(w[0][0])
  {
    LeftTrimBlank(lines[0]);
    if Blank(lines[0]) {
      FirstAtMargin(lines[1..]);
    }
  }

  // ---- what stripping and splitting come to ----

  lemma LeftPads(a: string, s: string)
    requires Blank(a) && (s == "" || !IsSpace(s[0]))
    ensures LeftTrimmed(a + s) == s
  {
    LeftTrimAppend(a, s);
  }

  lemma RightPads(s: string, b: string)
    requires Blank(b) && (s == "" || !IsSpace(s[|s| - 1]))
    ensures RightTrimmed(s + b) == s
  {
    RightTrimAppend(s, b);
  }

  lemma BlankStrips(s: string)
    requires Blank(s)
    ensures Strip(s) == "" && LeftTrimmed(s) == "" && RightTrimmed(s) == ""
  {
    StripTrims(s);
    LeftPads(s, "");
    assert s + "" == s;
    RightTrimBlank(s);
  }

  lemma PadsTrim(a: string, s: string, b: string)
    requires Blank(a) && Blank(b) && Stripped(s) && s != ""
    ensures RightTrimmed(LeftTrimmed(a + (s + b))) == s
  {
    assert (s + b)[0] == s[0];
    LeftPads(a, s + b);
    RightPads(s, b);
  }

  lemma PadsBlank(a: string, b: string)
    requires Blank(a) && Blank(b)
    ensures RightTrimmed(LeftTrimmed(a + b)) == ""
  {
    BlankAppend(a, b);
    BlankStrips(a + b);
    BlankStrips("");
  }

  /** Stripping takes exactly the blanks around a text that has none at its ends. */
  lemma StripPads(a: string, s: string, b: string)
    requires Blank(a) && Blank(b) && Stripped(s)
    ensures Strip(a + (s + b)) == s
  {
    StripTrims(a + (s + b));
    if s == "" {
      assert s + b == b;
      PadsBlank(a, b);
    } else {
      PadsTrim(a, s, b);
    }
  }

  lemma {:induction false} LeftTrimTwice(s: string)
    ensures LeftTrimmed(LeftTrimmed(s)) == LeftTrimmed(s)
  {
    if s != "" && IsSpace(s[0]) {
      LeftTrimTwice(s[1..]);
    }
  }

  lemma {:induction false} TrimsCommute(s: string)
    ensures LeftTrimmed(RightTrimmed(s)) == RightTrimmed(LeftTrimmed(s))
  {
    if Blank(s) {
      BlankStrips(s);
    } else if IsSpace(s[0]) {
      TrimsCommute(s[1..]);
      assert s == [s[0]] + s[1..];
      RightTrimAppend([s[0]], s[1..]);
      assert ([s[0]] + RightTrimmed(s[1..]))[1..] == RightTrimmed(s[1..]);
    } else {
      RightTrimPrefix(s);
      RightTrimBlank(s);
    }
  }

  lemma {:induction false} RightTrimTwice(s: string)
    ensures RightTrimmed(RightTrimmed(s)) == RightTrimmed(s)
  {
    RightTrimPrefix(s);
  }

  /** Trimming one side first does not matter to a strip. */
  lemma StripTrimmed(s: string)
    ensures Strip(LeftTrimmed(s)) == Strip(s) && Strip(RightTrimmed(s)) == Strip(s)
  {
    StripTrims(s);
    StripTrims(LeftTrimmed(s));
    StripTrims(RightTrimmed(s));
    LeftTrimTwice(s);
    TrimsCommute(s);
    RightTrimTwice(LeftTrimmed(s));
  }

  /** A break ends a line, whichever character it is. */
  lemma BreakEndsLine(line: string, c: char, rest: string)
    requires OneLine(line) && IsBreak(c) && !(c == '\r' && rest != "" && rest[0] == '\n')
    ensures SplitLines(line + [c] + rest) == [line] + SplitLines(rest)
  {
    CutAt(line, c, rest);
  }

  lemma {:induction false} CutAt(line: string, c: char, rest: string)
    requires OneLine(line) && IsBreak(c) && !(c == '\r' && rest != "" && rest[0] == '\n')
    ensures FirstLine(line + [c] + rest) == line && RestLines(line + [c] + rest) == rest
  {
    var s := line + [c] + rest;
    if line == "" {
      assert s == [c] + rest && s[1..] == rest;
    } else {
      assert s[1..] == line[1..] + [c] + rest;
      assert line[0] in line;
      CutAt(line[1..], c, rest);
      assert [line[0]] + line[1..] == line;
    }
  }

  /** A carriage return and a line feed are one break. */
  lemma {:induction false} PairEndsLine(line: string, rest: string)
    requires OneLine(line)
    ensures SplitLines(line + "\r\n" + rest) == [line] + SplitLines(rest)
  {
    CutAtPair(line, rest);
  }

  lemma {:induction false} CutAtPair(line: string, rest: string)
    requires OneLine(line)
    ensures FirstLine(line + "\r\n" + rest) == line && RestLines(line + "\r\n" + rest) == rest
  {
    var s := line + "\r\n" + rest;
    if line == "" {
      assert s == "\r\n" + rest && s[2..] == rest;
    } else {
      assert s[1..] == line[1..] + "\r\n" + rest;
      assert line[0] in line;
      CutAtPair(line[1..], rest);
      assert [line[0]] + line[1..] == line;
    }
  }

  /** Text without a break is one line, and the empty text none. */
  lemma {:induction false} LastLine(line: string)
    requires OneLine(line) && line != ""
    ensures SplitLines(line) == [line]
  {
    NoBreak(line);
  }

  lemma {:induction false} NoBreak(line: string)
    requires OneLine(line)
    ensures FirstLine(line) == line && RestLines(line) == ""
  {
    if line != "" {
      assert line[0] in line;
      NoBreak(line[1..]);
      assert [line[0]] + line[1..] == line;
    }
  }
}
