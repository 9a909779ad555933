/**
  The few Python string operations the pipeline relies on, over `string == seq<char>`:
  `str.isspace` (per character), `strip`, `lstrip`, `splitlines` followed by the
  "stripped, non-blank lines" filter, `" ".join`, `split()`, `lower`, `replace(c, "")`,
  and ASCII versions of `isupper` and `isalpha`.
*/
module Text {

  /** Python's `str.isspace` for one character. */
  predicate IsSpace(c: char) {
    c == ' ' || c == '\t' || c == '\n' || c == '\r' || c == '\U{000B}' || c == '\U{000C}'
    || ('\U{001C}' <= c <= '\U{001F}') || c == '\U{0085}' || c == '\U{00A0}' || c == '\U{1680}'
    || ('\U{2000}' <= c <= '\U{200A}') || c == '\U{2028}' || c == '\U{2029}'
    || c == '\U{202F}' || c == '\U{205F}' || c == '\U{3000}'
  }

  /** The characters at which Python's `str.splitlines` breaks a line. */
  predicate IsLineBreak(c: char) {
    c == '\n' || c == '\r' || c == '\U{000B}' || c == '\U{000C}'
    || ('\U{001C}' <= c <= '\U{001E}') || c == '\U{0085}' || c == '\U{2028}' || c == '\U{2029}'
  }

  lemma LineBreakIsSpace(c: char)
    requires IsLineBreak(c)
    ensures IsSpace(c)
  {
  }

  predicate IsUpper(c: char) { 'A' <= c <= 'Z' }

  predicate IsLetter(c: char) { 'A' <= c <= 'Z' || 'a' <= c <= 'z' }

  /** Python's `str.isalpha` restricted to ASCII letters: non-empty and letters only. */
  predicate IsAlpha(s: string) {
    |s| > 0 && forall k :: 0 <= k < |s| ==> IsLetter(s[k])
  }

  function LowerChar(c: char): char {
    if 'A' <= c <= 'Z' then (c as int + 32) as char else c
  }

  /** Python's `str.lower` on ASCII letters. */
  function Lower(s: string): (r: string)
    ensures |r| == |s|
    ensures forall k :: 0 <= k < |s| ==> r[k] == LowerChar(s[k])
  {
    if s == [] then [] else [LowerChar(s[0])] + Lower(s[1..])
  }

  /** No leading and no trailing whitespace. */
  predicate Stripped(s: string) {
    s == [] || (!IsSpace(s[0]) && !IsSpace(s[|s| - 1]))
  }

  /** Python's `str.lstrip()`: drops the leading whitespace and nothing else. */
  function LStrip(s: string): (r: string) {
    s[LeadingSpace(s)..]
  }

  /** How many whitespace characters `s` starts with. */
  function LeadingSpace(s: string): (n: nat)
    ensures n <= |s|
    ensures forall k :: 0 <= k < n ==> IsSpace(s[k])
    ensures n == |s| || !IsSpace(s[n])
  {
    if s != [] && IsSpace(s[0]) then 1 + LeadingSpace(s[1..]) else 0
  }

  lemma LStripOneSpace(s: string)
    requires s == [] || !IsSpace(s[0])
    ensures LStrip([' '] + s) == s
  {
    assert ([' '] + s)[1..] == s;
    assert LeadingSpace([' '] + s) == 1;
  }

  /** Python's `str.rstrip()`: drops the trailing whitespace and nothing else. */
  function RStrip(s: string): (r: string)
    ensures |r| <= |s| && r == s[..|r|]
    ensures forall k :: |r| <= k < |s| ==> IsSpace(s[k])
    ensures r == [] || !IsSpace(r[|r| - 1])
  {
    if s != [] && IsSpace(s[|s| - 1]) then RStrip(s[..|s| - 1]) else s
  }

  /** Python's `str.strip()`: a contiguous piece of `s` with no whitespace at either end,
      obtained by dropping whitespace only. */
  function Strip(s: string): (r: string)
    ensures Stripped(r)
    ensures |r| <= |s|
  {
    RStrip(LStrip(s))
  }

  /** Stripping leaves nothing exactly when the string is all whitespace. */
  lemma StripBlank(s: string)
    ensures (forall k :: 0 <= k < |s| ==> IsSpace(s[k])) <==> Strip(s) == []
  {
    var l := LStrip(s);
    var r := RStrip(l);
    if r == [] {
      assert l == [];
    } else {
      assert !IsSpace(s[|s| - |l|]);
    }
  }

  lemma StripOfStripped(s: string)
    requires Stripped(s)
    ensures Strip(s) == s
  {
  }

  lemma NoLinesOfEmpty()
    ensures NonBlankLines([]) == []
  {
    assert LinePieces([]) == [""];
  }

  /** The pieces of `s` between line breaks (`splitlines` keeping a trailing empty piece). */
  function LinePieces(s: string): (r: seq<string>)
    ensures |r| >= 1
  {
    if s == [] then [""]
    else
      var rest := LinePieces(s[1..]);
      if IsLineBreak(s[0]) then [""] + rest else [[s[0]] + rest[0]] + rest[1..]
  }

  /** Text without line breaks extends the first piece. */
  lemma {:induction false} LinePiecesPrefix(a: string, t: string)
    requires forall k :: 0 <= k < |a| ==> !IsLineBreak(a[k])
    ensures LinePieces(a + t) == [a + LinePieces(t)[0]] + LinePieces(t)[1..]
  {
    if a != [] {
      assert (a + t)[1..] == a[1..] + t;
      LinePiecesPrefix(a[1..], t);
      assert [a[0]] + (a[1..] + LinePieces(t)[0]) == a + LinePieces(t)[0];
    } else {
      var p := LinePieces(t);
      assert a + t == t;
      assert a + p[0] == p[0];
      assert [p[0]] + p[1..] == p;
    }
  }

  lemma LinePiecesOfLine(a: string)
    requires forall k :: 0 <= k < |a| ==> !IsLineBreak(a[k])
    ensures LinePieces(a) == [a]
  {
    LinePiecesPrefix(a, "");
    assert a + "" == a;
  }

  lemma LinePiecesOfTwoLines(a: string, c: char, b: string)
    requires forall k :: 0 <= k < |a| ==> !IsLineBreak(a[k])
    requires forall k :: 0 <= k < |b| ==> !IsLineBreak(b[k])
    requires IsLineBreak(c)
    ensures LinePieces(a + [c] + b) == [a, b]
  {
    var t := [c] + b;
    LinePiecesPrefix(a, t);
    assert a + [c] + b == a + t;
    assert t[1..] == b;
    LinePiecesOfLine(b);
    assert LinePieces(t) == [""] + [b];
    assert a + "" == a;
  }

  lemma ConsAllStripped(first: string, tail: seq<string>)
    requires first != [] && Stripped(first)
    requires forall k :: 0 <= k < |tail| ==> tail[k] != [] && Stripped(tail[k])
    ensures forall k :: 0 <= k < |[first] + tail| ==> ([first] + tail)[k] != [] && Stripped(([first] + tail)[k])
  {
    forall k | 0 <= k < |[first] + tail| ensures ([first] + tail)[k] != [] && Stripped(([first] + tail)[k]) {
      if k > 0 { assert ([first] + tail)[k] == tail[k - 1]; }
    }
  }

  /** `[p.strip() for p in pieces if p.strip()]`. */
  function StripNonBlank(pieces: seq<string>): (r: seq<string>)
    ensures |r| <= |pieces|
    ensures forall k :: 0 <= k < |r| ==> r[k] != [] && Stripped(r[k])
  {
    if pieces == [] then []
    else
      var head := Strip(pieces[0]);
      var rest := StripNonBlank(pieces[1..]);
      if head == [] then rest
      else
        ConsAllStripped(head, rest);
        [head] + rest
  }

  /** `[ln.strip() for ln in s.splitlines() if ln.strip()]`. Splitting at each line-break
      character separately gives the same list as `splitlines`, because the only pieces the
      two splittings disagree on (the empty piece inside "\r\n", a trailing empty piece)
      are blank and are filtered out. */
  function NonBlankLines(s: string): (r: seq<string>)
    ensures forall k :: 0 <= k < |r| ==> r[k] != [] && Stripped(r[k])
  {
    StripNonBlank(LinePieces(s))
  }

  /** Python's `sep.join(parts)`. */
  function Join(parts: seq<string>, sep: string): (r: string)
    ensures parts == [] ==> r == []
    ensures |parts| == 1 ==> r == parts[0]
  {
    if parts == [] then []
    else if |parts| == 1 then parts[0]
    else parts[0] + sep + Join(parts[1..], sep)
  }

  lemma JoinCons(x: string, parts: seq<string>, sep: string)
    requires parts != []
    ensures Join([x] + parts, sep) == x + sep + Join(parts, sep)
  {
    assert ([x] + parts)[1..] == parts;
  }

  /** Appending one more part adds the separator and that part at the end. */
  lemma {:induction false} JoinSnoc(parts: seq<string>, x: string, sep: string)
    requires parts != []
    ensures Join(parts + [x], sep) == Join(parts, sep) + sep + x
  {
    if |parts| > 1 {
      JoinSnoc(parts[1..], x, sep);
      assert (parts + [x])[1..] == parts[1..] + [x];
    }
  }

  /** Joining non-empty stripped parts with one space gives a stripped string. */
  lemma {:induction false} JoinStripped(parts: seq<string>)
    requires forall k :: 0 <= k < |parts| ==> parts[k] != [] && Stripped(parts[k])
    ensures Stripped(Join(parts, " "))
    ensures parts != [] ==> Join(parts, " ") != [] && Join(parts, " ")[0] == parts[0][0]
  {
    if |parts| > 1 {
      JoinStripped(parts[1..]);
      var tail := Join(parts[1..], " ");
      assert Join(parts, " ") == parts[0] + " " + tail;
      assert tail[|tail| - 1] == Join(parts, " ")[|Join(parts, " ")| - 1];
    }
  }

  /** `c in s`. */
  predicate Contains(s: string, c: char) {
    exists k :: 0 <= k < |s| && s[k] == c
  }

  /** Past a first character that is not `c`, `c in s` is `c in s[1:]`. */
  lemma ContainsTail(s: string, c: char)
    requires s != [] && s[0] != c
    ensures Contains(s, c) <==> Contains(s[1..], c)
  {
    if Contains(s, c) {
      var k :| 0 <= k < |s| && s[k] == c;
      assert s[1..][k - 1] == c;
    }
    if Contains(s[1..], c) {
      var k :| 0 <= k < |s[1..]| && s[1..][k] == c;
      assert s[k + 1] == c;
    }
  }

  /** The index of the first `c` in `s`, from `s.split(c, 1)`. */
  function IndexOf(s: string, c: char): (i: nat)
    requires Contains(s, c)
    ensures i < |s| && s[i] == c
    ensures forall k :: 0 <= k < i ==> s[k] != c
  {
    if s[0] == c then 0
    else
      assert Contains(s[1..], c) by {
        var k :| 0 <= k < |s| && s[k] == c;
        assert s[1..][k - 1] == c;
      }
      1 + IndexOf(s[1..], c)
  }

  /** The first occurrence is the only index `IndexOf` can return. */
  lemma {:induction false} IndexOfFirst(s: string, c: char, i: nat)
    requires i < |s| && s[i] == c
    requires forall k :: 0 <= k < i ==> s[k] != c
    ensures Contains(s, c) && IndexOf(s, c) == i
  {
    if i > 0 {
      assert s[1..][i - 1] == c;
      IndexOfFirst(s[1..], c, i - 1);
    }
  }

  /** `s.replace(c, "")` for a single character `c`. */
  function RemoveChar(s: string, c: char): (r: string)
    ensures |r| <= |s|
    ensures forall k :: 0 <= k < |r| ==> r[k] != c
    ensures forall k :: 0 <= k < |r| ==> r[k] in s
    ensures forall k :: 0 <= k < |s| && s[k] != c ==> s[k] in r
  {
    if s == [] then [] else (if s[0] == c then [] else [s[0]]) + RemoveChar(s[1..], c)
  }

  lemma {:induction false} RemoveAbsentChar(s: string, c: char)
    requires forall k :: 0 <= k < |s| ==> s[k] != c
    ensures RemoveChar(s, c) == s
  {
    if s != [] { RemoveAbsentChar(s[1..], c); }
  }

  /** The length of the longest prefix of `s` whose characters all satisfy `keep`. */
  function RunLength(s: string, keep: char -> bool): (n: nat)
    ensures n <= |s|
    ensures forall k :: 0 <= k < n ==> keep(s[k])
    ensures n == |s| || !keep(s[n])
  {
    if s == [] || !keep(s[0]) then 0 else 1 + RunLength(s[1..], keep)
  }

  /** The maximal runs of characters satisfying `keep`, in order (Python's `re.findall`
      with a character-class pattern followed by `+`, and `str.split()` for `!IsSpace`). */
  function Runs(s: string, keep: char -> bool): (r: seq<string>)
    ensures forall k :: 0 <= k < |r| ==> r[k] != []
    ensures forall k, j :: 0 <= k < |r| && 0 <= j < |r[k]| ==> keep(r[k][j])
    ensures |r| <= |s|
    decreases |s|
  {
    if s == [] then []
    else if !keep(s[0]) then Runs(s[1..], keep)
    else
      var n := RunLength(s, keep);
      [s[..n]] + Runs(s[n..], keep)
  }

  /** A kept run ended by a character that is not kept is the first run. */
  lemma {:induction false} RunsOfWord(w: string, c: char, rest: string, keep: char -> bool)
    requires w != [] && !keep(c)
    requires forall k :: 0 <= k < |w| ==> keep(w[k])
    ensures Runs(w + [c] + rest, keep) == [w] + Runs(rest, keep)
  {
    var s := w + [c] + rest;
    RunLengthOfWord(w, c, rest, keep);
    assert s[..|w|] == w && s[|w|..] == [c] + rest;
    assert ([c] + rest)[1..] == rest;
  }

  lemma {:induction false} RunLengthOfWord(w: string, c: char, rest: string, keep: char -> bool)
    requires !keep(c)
    requires forall k :: 0 <= k < |w| ==> keep(w[k])
    ensures RunLength(w + [c] + rest, keep) == |w|
  {
    if w != [] {
      assert (w + [c] + rest)[1..] == w[1..] + [c] + rest;
      RunLengthOfWord(w[1..], c, rest, keep);
    }
  }

  /** A character that is not kept separates runs and belongs to none. */
  lemma RunsSkip(c: char, rest: string, keep: char -> bool)
    requires !keep(c)
    ensures Runs([c] + rest, keep) == Runs(rest, keep)
  {
    assert ([c] + rest)[1..] == rest;
  }

  /** A non-empty string of kept characters is a single run, never split. */
  lemma RunsOfKept(w: string, keep: char -> bool)
    requires w != []
    requires forall k :: 0 <= k < |w| ==> keep(w[k])
    ensures Runs(w, keep) == [w]
  {
    RunLengthOfKept(w, keep);
    assert w[..|w|] == w && w[|w|..] == [];
  }

  lemma {:induction false} RunLengthOfKept(w: string, keep: char -> bool)
    requires forall k :: 0 <= k < |w| ==> keep(w[k])
    ensures RunLength(w, keep) == |w|
  {
    if w != [] {
      RunLengthOfKept(w[1..], keep);
    }
  }

  /** Python's `str.split()` with no separator. */
  function SplitWhitespace(s: string): seq<string> {
    Runs(s, c => !IsSpace(c))
  }

  function Concat(parts: seq<string>): string {
    if parts == [] then [] else parts[0] + Concat(parts[1..])
  }

  function Keep(s: string, keep: char -> bool): (r: string)
    ensures |r| <= |s|
  {
    if s == [] then [] else (if keep(s[0]) then [s[0]] else []) + Keep(s[1..], keep)
  }

  lemma {:induction false} KeepAppend(a: string, b: string, keep: char -> bool)
    ensures Keep(a + b, keep) == Keep(a, keep) + Keep(b, keep)
  {
    if a != [] {
      assert (a + b)[1..] == a[1..] + b;
      KeepAppend(a[1..], b, keep);
    } else {
      assert a + b == b;
    }
  }

  lemma {:induction false} KeepAll(s: string, keep: char -> bool)
    requires forall k :: 0 <= k < |s| ==> keep(s[k])
    ensures Keep(s, keep) == s
  {
    if s != [] { KeepAll(s[1..], keep); }
  }

  /** Runs lose no kept character and add none: concatenated, they are exactly the
      characters of `s` that satisfy `keep`, in order. */
  lemma {:induction false} RunsConcat(s: string, keep: char -> bool)
    ensures Concat(Runs(s, keep)) == Keep(s, keep)
    decreases |s|
  {
    if s == [] {
    } else if !keep(s[0]) {
      RunsConcat(s[1..], keep);
    } else {
      var n := RunLength(s, keep);
      RunsConcat(s[n..], keep);
      assert s == s[..n] + s[n..];
      KeepAppend(s[..n], s[n..], keep);
      KeepAll(s[..n], keep);
      assert ([s[..n]] + Runs(s[n..], keep))[1..] == Runs(s[n..], keep);
    }
  }
}
