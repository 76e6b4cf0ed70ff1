/** The string operations of Python that the text formats below are made of. */
module Text {

  /** The characters that `str.strip` removes. */
  predicate IsSpace(c: char) {
    || '\U{0009}' <= c <= '\U{000D}' || '\U{001C}' <= c <= '\U{0020}'
    || c == '\U{0085}' || c == '\U{00A0}' || c == '\U{1680}' || '\U{2000}' <= c <= '\U{200A}'
    || c == '\U{2028}' || c == '\U{2029}' || c == '\U{202F}' || c == '\U{205F}' || c == '\U{3000}'
  }

  /** They are 29 code points. */
  lemma SpacesAre(c: char)
    ensures IsSpace(c) <==>
            c as int in {9, 10, 11, 12, 13, 28, 29, 30, 31, 32, 133, 160, 5760, 8192, 8193, 8194, 8195, 8196, 8197,
                         8198, 8199, 8200, 8201, 8202, 8232, 8233, 8239, 8287, 12288}
  {
  }

  /** Python's `s.strip()`. */
  function Strip(s: string): string {
    if s == "" then ""
    else if IsSpace(s[0]) then Strip(s[1..])
    else if IsSpace(s[|s| - 1]) then Strip(s[..|s| - 1])
    else s
  }

  /** Nothing but blanks. */
  predicate Blank(s: string) {
    s == "" || (IsSpace(s[0]) && Blank(s[1..]))
  }

  /** No blank at either end. */
  predicate Stripped(s: string) {
    s == "" || (!IsSpace(s[0]) && !IsSpace(s[|s| - 1]))
  }

  lemma {:induction false} StripStrips(s: string)
    ensures Stripped(Strip(s))
    ensures Stripped(s) ==> Strip(s) == s
    ensures forall c :: c in Strip(s) ==> c in s
  {
    if s != "" {
      if IsSpace(s[0]) {
        StripStrips(s[1..]);
      } else if IsSpace(s[|s| - 1]) {
        StripStrips(s[..|s| - 1]);
      }
    }
  }

  lemma StripLeading(c: char, s: string)
    requires IsSpace(c)
    ensures Strip([c] + s) == Strip(s)
  {
    assert ([c] + s)[1..] == s;
  }

  /** Python's `s.index(c)`. */
  function IndexOf(s: string, c: char): (i: nat)
    requires c in s
    ensures i < |s| && s[i] == c && c !in s[..i]
  {
    if s[0] == c then 0
    else
      var i := IndexOf(s[1..], c) + 1;
      assert s[..i] == [s[0]] + s[1..][..i - 1];
      i
  }

  lemma {:induction false} IndexOfFirst(p: string, c: char, rest: string)
    requires c !in p
    ensures c in p + [c] + rest && IndexOf(p + [c] + rest, c) == |p|
    ensures (p + [c] + rest)[..|p|] == p && (p + [c] + rest)[|p| + 1..] == rest
  {
    var s := p + [c] + rest;
    assert s[|p|] == c;
    if p != "" {
      IndexOfFirst(p[1..], c, rest);
      assert s[1..] == p[1..] + [c] + rest;
      assert s[0] == p[0];
    }
  }

  function LowerChar(c: char): char {
    if 'A' <= c <= 'Z' then c + ('a' - 'A') else c
  }

  /** Twenty-six letters move by 32 places, and nothing else moves. */
  lemma LowerCharIs(c: char)
    ensures 65 <= c as int <= 90 ==> LowerChar(c) as int == c as int + 32
    ensures c as int < 65 || c as int > 90 ==> LowerChar(c) == c
  {
  }

  /** Python's `s.lower()` on ASCII letters. */
  function Lower(s: string): (r: string)
    ensures |r| == |s| && forall i :: 0 <= i < |s| ==> r[i] == LowerChar(s[i])
  {
    if s == "" then "" else [LowerChar(s[0])] + Lower(s[1..])
  }

  function Join(parts: seq<string>, sep: string): string {
    if parts == [] then ""
    else if |parts| == 1 then parts[0]
    else parts[0] + sep + Join(parts[1..], sep)
  }

  /** Python's `s.split(sep)` for a separator of one character. */
  function Split(s: string, sep: char): (parts: seq<string>)
    ensures parts != []
  {
    if s == "" then [""]
    else
      var rest := Split(s[1..], sep);
      if s[0] == sep then [""] + rest else [[s[0]] + rest[0]] + rest[1..]
  }

  lemma {:induction false} SplitParts(s: string, sep: char)
    ensures forall p :: p in Split(s, sep) ==> sep !in p
  {
    if s != "" {
      SplitParts(s[1..], sep);
    }
  }

  lemma {:induction false} SplitOne(p: string, sep: char)
    requires sep !in p
    ensures Split(p, sep) == [p]
  {
    if p != "" {
      SplitOne(p[1..], sep);
      assert [p[0]] + p[1..] == p;
    }
  }

  lemma {:induction false} SplitFirst(p: string, sep: char, rest: string)
    requires sep !in p
    ensures Split(p + [sep] + rest, sep) == [p] + Split(rest, sep)
  {
    var s := p + [sep] + rest;
    if p == "" {
      assert s[1..] == rest;
    } else {
      SplitFirst(p[1..], sep, rest);
      assert s[1..] == p[1..] + [sep] + rest;
      assert [p[0]] + p[1..] == p;
    }
  }

  predicate IsPrefix(p: string, s: string) {
    |p| <= |s| && s[..|p|] == p
  }

  predicate IsSuffix(p: string, s: string) {
    |p| <= |s| && s[|s| - |p|..] == p
  }

  /** `part` occurs somewhere in `s`. */
  predicate Contains(s: string, part: string) {
    IsPrefix(part, s) || (s != "" && Contains(s[1..], part))
  }

  // ---- the order of strings ----

  /** Python's `<` on strings: by code points, then by length. */
  predicate Less(a: string, b: string) {
    b != "" && (a == "" || a[0] < b[0] || (a[0] == b[0] && Less(a[1..], b[1..])))
  }

  lemma {:induction false} LessTotal(a: string, b: string)
    ensures a == b || Less(a, b) || Less(b, a)
    ensures !(Less(a, b) && Less(b, a)) && !Less(a, a)
  {
    if a != "" {
      LessTotal(a[1..], a[1..]);
      if b != "" {
        LessTotal(a[1..], b[1..]);
        if a[0] == b[0] && a[1..] == b[1..] {
          assert a == [a[0]] + a[1..] && b == [b[0]] + b[1..];
        }
      }
    }
  }

  lemma {:induction false} LessTransitive(a: string, b: string, c: string)
    requires Less(a, b) && Less(b, c)
    ensures Less(a, c)
  {
    if a != "" && a[0] == b[0] && b[0] == c[0] {
      LessTransitive(a[1..], b[1..], c[1..]);
    }
  }

  predicate IsLeast(k: string, keys: set<string>) {
    k in keys && forall x :: x in keys ==> x == k || Less(k, x)
  }

  lemma {:induction false} LeastExists(keys: set<string>)
    requires keys != {}
    ensures exists k :: IsLeast(k, keys)
  {
    var y :| y in keys;
    var rest := keys - {y};
    if rest == {} {
      assert forall z :: z in keys ==> z == y || z in rest;
      assert IsLeast(y, keys);
    } else {
      LeastExists(rest);
      var x :| IsLeast(x, rest);
      LessTotal(x, y);
      if Less(x, y) {
        assert IsLeast(x, keys);
      } else {
        forall z | z in keys ensures z == y || Less(y, z) {
          if z != y && z != x {
            LessTransitive(y, x, z);
          }
        }
        assert IsLeast(y, keys);
      }
    }
  }

  ghost function Least(keys: set<string>): (k: string)
    requires keys != {}
    ensures IsLeast(k, keys)
  {
    LeastExists(keys);
    var k :| IsLeast(k, keys);
    k
  }

  /** The keys in ascending order. */
  ghost function Ascending(keys: set<string>): seq<string> {
    if keys == {} then [] else [Least(keys)] + Ascending(keys - {Least(keys)})
  }

  lemma {:induction false} AscendingElements(keys: set<string>)
    ensures forall k :: k in Ascending(keys) <==> k in keys
  {
    if keys != {} {
      AscendingElements(keys - {Least(keys)});
    }
  }

  lemma {:induction false} AscendingSorts(keys: set<string>, i: nat, j: nat)
    requires i < j < |Ascending(keys)|
    ensures Less(Ascending(keys)[i], Ascending(keys)[j])
  {
    var rest := keys - {Least(keys)};
    AscendingElements(rest);
    if i == 0 {
      assert Ascending(keys)[j] == Ascending(rest)[j - 1];
      assert Ascending(keys)[j] in Ascending(rest);
    } else {
      AscendingSorts(rest, i - 1, j - 1);
    }
  }
}
