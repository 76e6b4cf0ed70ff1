/** Merging cookie texts: a parser into a map, an overlay, and a sorted printer. */
module CookieMerge {
  import opened Outcomes
  import opened Text
  import opened TextLines

  type Cookies = map<string, string>

  // ---- the parser ----

  /** One piece between semicolons: a name and a value, or nothing without an equals sign. */
  function Pair(piece: string): Option<(string, string)> {
    var pair := Strip(piece);
    if '=' !in pair then None
    else
      var i := IndexOf(pair, '=');
      Some((Strip(pair[..i]), Strip(pair[i + 1..])))
  }

  function Pairs(pieces: seq<string>): seq<Option<(string, string)>> {
    if pieces == [] then [] else [Pair(pieces[0])] + Pairs(pieces[1..])
  }

  function Single(pair: Option<(string, string)>): Cookies {
    if pair.None? then map[] else map[pair.value.0 := pair.value.1]
  }

  /** The dictionary that assigning the pairs in turn gives: a later value replaces an earlier one. */
  function Assigned(pairs: seq<Option<(string, string)>>): Cookies {
    if pairs == [] then map[] else Single(pairs[0]) + Assigned(pairs[1..])
  }

  function Parse(text: string): Cookies {
    Assigned(Pairs(Split(text, ';')))
  }

  // ---- the printer ----

  function Entry(cookies: Cookies, name: string): string
    requires name in cookies
  {
    name + "=" + cookies[name]
  }

  ghost function Entries(cookies: Cookies, names: seq<string>): seq<string>
    requires forall n :: n in names ==> n in cookies
  {
    if names == [] then [] else [Entry(cookies, names[0])] + Entries(cookies, names[1..])
  }

  ghost function Print(cookies: Cookies): string {
    AscendingElements(cookies.Keys);
    Join(Entries(cookies, Ascending(cookies.Keys)), "; ")
  }

  ghost function Merge(im: Cookies, existing: string): string {
    Print(Parse(existing) + im)
  }

  /** `sorted`: the names of the merged dictionary, least first. */
  method SortedNames(cookies: Cookies) returns (names: seq<string>)
    ensures names == Ascending(cookies.Keys)
  {
    names := [];
    var left := cookies.Keys;
    while left != {}
      invariant left <= cookies.Keys && names + Ascending(left) == Ascending(cookies.Keys)
      decreases |left|
    {
      LeastExists(left);
      LeastUnique(left);
      var k :| IsLeast(k, left);
      names := names + [k];
      left := left - {k};
    }
    assert names + [] == names;
  }

  lemma LeastUnique(keys: set<string>)
    ensures forall a, b :: IsLeast(a, keys) && IsLeast(b, keys) ==> a == b
  {
    forall a, b | IsLeast(a, keys) && IsLeast(b, keys) ensures a == b {
      LessTotal(a, b);
    }
  }

  function WithPair(existing: Cookies, pair: Option<(string, string)>): Cookies {
    if pair.None? then existing else existing[pair.value.0 := pair.value.1]
  }

  lemma PairIsOverlay(existing: Cookies, pair: Option<(string, string)>)
    ensures WithPair(existing, pair) == existing + Single(pair)
  {
  }

  lemma PairsCons(piece: string, rest: seq<string>)
    ensures Assigned(Pairs([piece] + rest)) == Single(Pair(piece)) + Assigned(Pairs(rest))
  {
    assert ([piece] + rest)[1..] == rest;
    assert ([Pair(piece)] + Pairs(rest))[1..] == Pairs(rest);
  }

  /** One more assignment, of the pair of the first of the remaining pieces. */
  lemma NextPair(existing: Cookies, piece: string, rest: seq<string>)
    ensures existing + Assigned(Pairs([piece] + rest)) == WithPair(existing, Pair(piece)) + Assigned(Pairs(rest))
  {
    PairsCons(piece, rest);
    PairIsOverlay(existing, Pair(piece));
    OverlayTwice(existing, Single(Pair(piece)), Assigned(Pairs(rest)));
  }

  method ParseText(text: string) returns (existing: Cookies)
    ensures existing == Parse(text)
  {
    existing := map[];
    var pieces := Split(text, ';');
    assert pieces[0..] == pieces;
    for i := 0 to |pieces|
      invariant existing + Assigned(Pairs(pieces[i..])) == Parse(text)
    {
      NextPair(existing, pieces[i], pieces[i + 1..]);
      assert [pieces[i]] + pieces[i + 1..] == pieces[i..];
      var pair := Strip(pieces[i]);
      if '=' in pair {
        var at := IndexOf(pair, '=');
        existing := existing[Strip(pair[..at]) := Strip(pair[at + 1..])];
      }
    }
  }

  lemma EntriesStep(cookies: Cookies, names: seq<string>, i: nat, entries: seq<string>)
    requires i < |names| && forall n :: n in names ==> n in cookies
    ensures entries + Entries(cookies, names[i..])
         == (entries + [Entry(cookies, names[i])]) + Entries(cookies, names[i + 1..])
  {
    assert names[i..][0] == names[i] && names[i..][1..] == names[i + 1..];
  }

  method PrintText(cookies: Cookies) returns (text: string)
    ensures text == Print(cookies)
  {
    var names := SortedNames(cookies);
    AscendingElements(cookies.Keys);
    var entries: seq<string> := [];
    assert names[0..] == names;
    for i := 0 to |names|
      invariant entries + Entries(cookies, names[i..]) == Entries(cookies, names)
    {
      EntriesStep(cookies, names, i, entries);
      assert names[i] in names;
      entries := entries + [names[i] + "=" + cookies[names[i]]];
    }
    assert entries + [] == entries;
    text := Join(entries, "; ");
  }

  method MergeCookies(im: Cookies, existingCookieStr: string) returns (text: string)
    ensures text == Merge(im, existingCookieStr)
  {
    var existing := ParseText(existingCookieStr);
    text := PrintText(existing + im);
  }

  // ---- what the parser yields ----

  predicate CleanName(s: string) {
    Stripped(s) && '=' !in s && ';' !in s
  }

  predicate CleanValue(s: string) {
    Stripped(s) && ';' !in s
  }

  /** Names and values that a cookie text can carry as they are. */
  ghost predicate Clean(cookies: Cookies) {
    forall n :: n in cookies ==> CleanName(n) && CleanValue(cookies[n])
  }

  ghost predicate CleanPair(pair: Option<(string, string)>) {
    pair.Some? ==> CleanName(pair.value.0) && CleanValue(pair.value.1)
  }

  lemma PairIsClean(piece: string)
    requires ';' !in piece
    ensures CleanPair(Pair(piece))
  {
    StripStrips(piece);
    var pair := Strip(piece);
    if '=' in pair {
      var i := IndexOf(pair, '=');
      StripStrips(pair[..i]);
      StripStrips(pair[i + 1..]);
    }
  }

  lemma {:induction false} PairsAreClean(pieces: seq<string>)
    requires forall p :: p in pieces ==> ';' !in p
    ensures forall pair :: pair in Pairs(pieces) ==> CleanPair(pair)
  {
    if pieces != [] {
      PairIsClean(pieces[0]);
      PairsAreClean(pieces[1..]);
    }
  }

  lemma {:induction false} AssignedIsClean(pairs: seq<Option<(string, string)>>)
    requires forall pair :: pair in pairs ==> CleanPair(pair)
    ensures Clean(Assigned(pairs))
  {
    if pairs != [] {
      assert pairs[0] in pairs;
      AssignedIsClean(pairs[1..]);
    }
  }

  lemma ParseIsClean(text: string)
    ensures Clean(Parse(text))
  {
    SplitParts(text, ';');
    PairsAreClean(Split(text, ';'));
    AssignedIsClean(Pairs(Split(text, ';')));
  }

  // ---- printing and parsing ----

  lemma EntryStripped(name: string, value: string)
    requires Stripped(name) && Stripped(value)
    ensures Stripped(name + "=" + value)
  {
    var e := name + "=" + value;
    assert e[0] == if name == "" then '=' else name[0];
    assert e[|e| - 1] == if value == "" then '=' else value[|value| - 1];
  }

  lemma EntryPair(name: string, value: string)
    requires Stripped(name) && '=' !in name && Stripped(value)
    ensures Pair(name + "=" + value) == Some((name, value))
  {
    var e := name + "=" + value;
    EntryStripped(name, value);
    StripStrips(e);
    IndexOfFirst(name, '=', value);
    assert e == name + ['='] + value;
    StripStrips(name);
    StripStrips(value);
  }

  lemma SpacedPair(piece: string)
    ensures Pair(" " + piece) == Pair(piece)
  {
    StripLeading(' ', piece);
    assert [' '] + piece == " " + piece;
  }

  function PairsOf(cookies: Cookies, names: seq<string>): seq<Option<(string, string)>>
    requires forall n :: n in names ==> n in cookies
  {
    if names == [] then [] else [Some((names[0], cookies[names[0]]))] + PairsOf(cookies, names[1..])
  }

  lemma {:induction false} PrintedPairs(cookies: Cookies, names: seq<string>)
    requires Clean(cookies) && names != [] && forall n :: n in names ==> n in cookies
    ensures Pairs(Split(Join(Entries(cookies, names), "; "), ';')) == PairsOf(cookies, names)
    ensures Pairs(Split(" " + Join(Entries(cookies, names), "; "), ';')) == PairsOf(cookies, names)
  {
    if |names| == 1 {
      PrintedPair(cookies, names[0]);
      assert names == [names[0]];
    } else {
      PrintedPairs(cookies, names[1..]);
      PrintedNext(cookies, names[0], names[1..]);
      assert names == [names[0]] + names[1..];
    }
  }

  lemma PrintedPair(cookies: Cookies, name: string)
    requires Clean(cookies) && name in cookies
    ensures Pairs(Split(Join(Entries(cookies, [name]), "; "), ';')) == PairsOf(cookies, [name])
    ensures Pairs(Split(" " + Join(Entries(cookies, [name]), "; "), ';')) == PairsOf(cookies, [name])
  {
    var e := Entry(cookies, name);
    EntryPair(name, cookies[name]);
    SpacedPair(e);
    assert [name][1..] == [];
    OnePiece(e);
    OnePiece(" " + e);
  }

  lemma PrintedNext(cookies: Cookies, name: string, names: seq<string>)
    requires Clean(cookies) && name in cookies && names != [] && forall n :: n in names ==> n in cookies
    requires Pairs(Split(" " + Join(Entries(cookies, names), "; "), ';')) == PairsOf(cookies, names)
    ensures Pairs(Split(Join(Entries(cookies, [name] + names), "; "), ';')) == PairsOf(cookies, [name] + names)
    ensures Pairs(Split(" " + Join(Entries(cookies, [name] + names), "; "), ';')) == PairsOf(cookies, [name] + names)
  {
    var e := Entry(cookies, name);
    EntryPair(name, cookies[name]);
    SpacedPair(e);
    assert ([name] + names)[1..] == names;
    MorePieces(e, Entries(cookies, names));
  }

  lemma MorePieces(e: string, rest: seq<string>)
    requires ';' !in e && rest != []
    ensures var after := Pairs(Split(" " + Join(rest, "; "), ';'));
            && Pairs(Split(Join([e] + rest, "; "), ';')) == [Pair(e)] + after
            && Pairs(Split(" " + Join([e] + rest, "; "), ';')) == [Pair(" " + e)] + after
  {
    var tail := " " + Join(rest, "; ");
    JoinFirst(e, rest);
    FirstPiece(e, tail);
    FirstPiece(" " + e, tail);
    assert " " + (e + [';'] + tail) == (" " + e) + [';'] + tail;
  }

  lemma JoinFirst(e: string, rest: seq<string>)
    requires rest != []
    ensures Join([e] + rest, "; ") == e + [';'] + (" " + Join(rest, "; "))
  {
    assert ([e] + rest)[1..] == rest;
    assert e + "; " + Join(rest, "; ") == e + [';'] + (" " + Join(rest, "; "));
  }

  lemma OnePiece(piece: string)
    requires ';' !in piece
    ensures Pairs(Split(piece, ';')) == [Pair(piece)]
  {
    SplitOne(piece, ';');
    assert [piece][1..] == [];
  }

  lemma FirstPiece(piece: string, tail: string)
    requires ';' !in piece
    ensures Pairs(Split(piece + [';'] + tail, ';')) == [Pair(piece)] + Pairs(Split(tail, ';'))
  {
    SplitFirst(piece, ';', tail);
    assert ([piece] + Split(tail, ';'))[1..] == Split(tail, ';');
  }

  /** The part of the dictionary with these names. */
  function Part(cookies: Cookies, names: seq<string>): Cookies {
    map n | n in names && n in cookies :: cookies[n]
  }

  lemma PartCons(cookies: Cookies, names: seq<string>)
    requires names != [] && names[0] in cookies
    ensures Part(cookies, names) == map[names[0] := cookies[names[0]]] + Part(cookies, names[1..])
  {
    assert forall n :: n in names <==> n == names[0] || n in names[1..];
  }

  lemma {:induction false} AssignedPairs(cookies: Cookies, names: seq<string>)
    requires forall n :: n in names ==> n in cookies
    ensures Assigned(PairsOf(cookies, names)) == Part(cookies, names)
  {
    if names != [] {
      AssignedPairs(cookies, names[1..]);
      PartCons(cookies, names);
      assert PairsOf(cookies, names)[1..] == PairsOf(cookies, names[1..]);
    }
  }

  lemma PrintParses(cookies: Cookies)
    requires Clean(cookies)
    ensures Parse(Print(cookies)) == cookies
  {
    var names := Ascending(cookies.Keys);
    AscendingElements(cookies.Keys);
    if names == [] {
      EmptyParses();
      assert cookies == map[];
    } else {
      PrintedPairs(cookies, names);
      AssignedPairs(cookies, names);
    }
  }

  lemma EmptyParses()
    ensures Parse("") == map[]
  {
    assert Split("", ';') == [""];
    assert Strip("") == "";
    OnePiece("");
    var none: seq<Option<(string, string)>> := [None];
    assert none[1..] == [];
    assert Assigned(none) == map[];
  }

  /** A dictionary survives printing and parsing exactly when its names and values are clean. */
  lemma RoundTripExactly(cookies: Cookies)
    ensures Parse(Print(cookies)) == cookies <==> Clean(cookies)
  {
    ParseIsClean(Print(cookies));
    if Clean(cookies) {
      PrintParses(cookies);
    }
  }

  lemma OverlayTwice(a: Cookies, b: Cookies, c: Cookies)
    ensures (a + b) + c == a + (b + c)
  {
  }

  lemma OverlayIsClean(a: Cookies, b: Cookies)
    requires Clean(a)
    ensures Clean(a + b) <==> Clean(b)
  {
    if Clean(a + b) {
      forall n | n in b ensures CleanName(n) && CleanValue(b[n]) {
        assert n in a + b && (a + b)[n] == b[n];
      }
    }
  }

  /**
    The merge law: the merged text parses to the parse of the existing text overlaid by the new cookies
    exactly when the new cookies are clean, whatever the existing text is.
   */
  lemma MergeExactly(im: Cookies, existing: string)
    ensures Parse(Merge(im, existing)) == Parse(existing) + im <==> Clean(im)
  {
    ParseIsClean(existing);
    RoundTripExactly(Parse(existing) + im);
    OverlayIsClean(Parse(existing), im);
  }

  /** Merging twice is merging the overlaid cookies once; in particular merging again changes nothing. */
  lemma MergeTwice(first: Cookies, second: Cookies, existing: string)
    requires Clean(first)
    ensures Merge(second, Merge(first, existing)) == Merge(first + second, existing)
  {
    MergeExactly(first, existing);
    OverlayTwice(Parse(existing), first, second);
  }

  lemma MergeAgain(im: Cookies, existing: string)
    requires Clean(im)
    ensures Merge(im, Merge(im, existing)) == Merge(im, existing)
  {
    MergeTwice(im, im, existing);
    assert im + im == im;
  }

  /** Two texts merge to the same text for every new cookies exactly when they parse to the same dictionary. */
  lemma MergeSeesParseOnly(a: string, b: string)
    ensures (forall im :: Merge(im, a) == Merge(im, b)) <==> Parse(a) == Parse(b)
  {
    if forall im :: Merge(im, a) == Merge(im, b) {
      MergeNothing(a);
      MergeNothing(b);
      assert Merge(map[], a) == Merge(map[], b);
    }
  }

  lemma MergeNothing(text: string)
    ensures Parse(Merge(map[], text)) == Parse(text)
  {
    MergeExactly(map[], text);
    assert Parse(text) + map[] == Parse(text);
  }

  // ---- what the parser and the printer come to, piece by piece ----

  lemma {:induction false} SplitSnoc(text: string, piece: string)
    requires ';' !in piece
    ensures Split(text + ";" + piece, ';') == Split(text, ';') + [piece]
  {
    if text == "" {
      SplitOne(piece, ';');
      SplitFirst("", ';', piece);
      assert text + ";" + piece == "" + [';'] + piece;
    } else {
      SplitSnoc(text[1..], piece);
      assert (text + ";" + piece)[1..] == text[1..] + ";" + piece;
      var rest := Split(text[1..], ';');
      assert (rest + [piece])[0] == rest[0] && (rest + [piece])[1..] == rest[1..] + [piece];
    }
  }

  lemma {:induction false} PairsSnoc(pieces: seq<string>, piece: string)
    ensures Assigned(Pairs(pieces + [piece])) == Assigned(Pairs(pieces)) + Single(Pair(piece))
  {
    if pieces == [] {
      assert pieces + [piece] == [piece] && [piece] == [piece] + pieces;
      PairsCons(piece, []);
      assert Pairs([]) == [];
    } else {
      PairsSnoc(pieces[1..], piece);
      assert pieces + [piece] == [pieces[0]] + (pieces[1..] + [piece]);
      PairsCons(pieces[0], pieces[1..] + [piece]);
      PairsCons(pieces[0], pieces[1..]);
      assert pieces == [pieces[0]] + pieces[1..];
      OverlayTwice(Single(Pair(pieces[0])), Assigned(Pairs(pieces[1..])), Single(Pair(piece)));
    }
  }

  lemma ParseSnoc(text: string, piece: string)
    requires ';' !in piece
    ensures Parse(text + ";" + piece) == Parse(text) + Single(Pair(piece))
  {
    SplitSnoc(text, piece);
    PairsSnoc(Split(text, ';'), piece);
  }

  lemma LeftSide(x: string, rest: string)
    requires rest != "" && !IsSpace(rest[0])
    ensures LeftTrimmed(x + rest) == LeftTrimmed(x) + rest
  {
    LeftTrimAppend(x, rest);
    if Blank(x) {
      BlankStrips(x);
      assert "" + rest == rest;
    }
  }

  lemma RightSide(front: string, y: string)
    requires front != "" && !IsSpace(front[|front| - 1])
    ensures RightTrimmed(front + y) == front + RightTrimmed(y)
  {
    RightTrimAppend(front, y);
    if Blank(y) {
      BlankStrips(y);
      assert front + "" == front;
    }
  }

  lemma SidesStripped(x: string, y: string)
    ensures Strip(x + "=" + y) == LeftTrimmed(x) + "=" + RightTrimmed(y)
  {
    StripTrims(x + "=" + y);
    assert x + "=" + y == x + ("=" + y);
    LeftSide(x, "=" + y);
    assert LeftTrimmed(x) + ("=" + y) == (LeftTrimmed(x) + "=") + y;
    RightSide(LeftTrimmed(x) + "=", y);
  }

  /** A piece is a name and a value around its first equals sign, both without the blanks around them. */
  lemma PairAroundEquals(x: string, y: string)
    requires '=' !in x
    ensures Pair(x + "=" + y) == Some((Strip(x), Strip(y)))
  {
    var l, r := LeftTrimmed(x), RightTrimmed(y);
    SidesStripped(x, y);
    LeftTrimBlank(x);
    IndexOfFirst(l, '=', r);
    assert l + "=" + r == l + ['='] + r;
    StripTrimmed(x);
    StripTrimmed(y);
  }

  lemma PieceHasNo(x: string, y: string)
    requires ';' !in x && ';' !in y
    ensures ';' !in x + "=" + y
  {
  }

  /** A further piece sets its name to its value, over what the text said of the name before. */
  lemma LaterPieceWins(text: string, x: string, y: string)
    requires '=' !in x && ';' !in x && ';' !in y
    ensures Parse(text + ";" + (x + "=" + y)) == Parse(text)[Strip(x) := Strip(y)]
  {
    PieceHasNo(x, y);
    PairAroundEquals(x, y);
    ParseSnoc(text, x + "=" + y);
    PairIsOverlay(Parse(text), Some((Strip(x), Strip(y))));
  }

  /** A piece without an equals sign says nothing. */
  lemma OtherPiecesAreIgnored(text: string, piece: string)
    requires ';' !in piece && '=' !in piece
    ensures Parse(text + ";" + piece) == Parse(text)
  {
    StripStrips(piece);
    ParseSnoc(text, piece);
  }

  lemma {:induction false} SameEntries(a: Cookies, b: Cookies, names: seq<string>)
    requires forall n :: n in names ==> n in a && n in b && a[n] == b[n]
    ensures Entries(a, names) == Entries(b, names)
  {
    if names != [] {
      SameEntries(a, b, names[1..]);
    }
  }

  /** The printed text begins with the least name and its value; the rest follows after a semicolon and a blank. */
  lemma PrintedText(cookies: Cookies, name: string)
    requires IsLeast(name, cookies.Keys)
    ensures Print(cookies) ==
            if cookies.Keys == {name} then name + "=" + cookies[name]
            else name + "=" + cookies[name] + "; " + Print(cookies - {name})
    ensures Print(map[]) == ""
  {
    LeastUnique(cookies.Keys);
    var rest := cookies - {name};
    assert rest.Keys == cookies.Keys - {name};
    AscendingElements(rest.Keys);
    AscendingElements(cookies.Keys);
    var names := Ascending(rest.Keys);
    assert Ascending(cookies.Keys) == [name] + names;
    SameEntries(cookies, rest, names);
    assert Entries(cookies, [name] + names) == [name + "=" + cookies[name]] + Entries(rest, names);
    if cookies.Keys == {name} {
      assert rest.Keys == {};
    } else {
      assert rest.Keys != {};
      var entries := Entries(rest, names);
      assert entries != [];
      assert ([name + "=" + cookies[name]] + entries)[1..] == entries;
    }
    var none: Cookies := map[];
    assert none.Keys == {};
  }
}
