/** The Python string operations the scripts rely on, written out on `seq<char>`.
    Character classes follow Python's definitions for the characters they name;
    letters and case are ASCII only (see README). */
module Text {
  import opened Wrappers

  /** Python's `str.isspace()` for one character. */
  predicate IsSpace(c: char) {
    c == ' ' || ('\t' <= c <= '\r') || ('\U{1c}' <= c <= '\U{1f}') || c == '\U{85}' || c == '\U{a0}'
    || c == '\U{1680}' || ('\U{2000}' <= c <= '\U{200a}') || c == '\U{2028}' || c == '\U{2029}'
    || c == '\U{202f}' || c == '\U{205f}' || c == '\U{3000}'
  }

  predicate IsAsciiLetter(c: char) {
    ('a' <= c <= 'z') || ('A' <= c <= 'Z')
  }

  predicate IsDigit(c: char) {
    '0' <= c <= '9'
  }

  /** Lower-casing of one character (ASCII letters only). */
  function Lower(c: char): (d: char)
    ensures IsAsciiLetter(c) ==> 'a' <= d <= 'z'
    ensures !('A' <= c <= 'Z') ==> d == c
  {
    if 'A' <= c <= 'Z' then (c as int + 32) as char else c
  }

  /** `s.lower()` */
  function LowerStr(s: string): (r: string)
    ensures |r| == |s|
    ensures forall i :: 0 <= i < |s| ==> r[i] == Lower(s[i])
  {
    seq(|s|, i requires 0 <= i < |s| => Lower(s[i]))
  }

  /** Two characters that lower-case alike are equal unless both are letters. */
  lemma LowerEqNonLetter(c: char, d: char)
    requires Lower(c) == Lower(d)
    requires !IsAsciiLetter(c)
    ensures c == d
  {
  }

  // ---------------------------------------------------------------- prefixes, suffixes, search

  predicate StartsWith(s: string, p: string) {
    |p| <= |s| && s[..|p|] == p
  }

  predicate EndsWith(s: string, p: string) {
    |p| <= |s| && s[|s| - |p|..] == p
  }

  /** `s.startswith(tuple(ps))`: false for an empty tuple. */
  predicate StartsWithAny(s: string, ps: seq<string>) {
    exists i | 0 <= i < |ps| :: StartsWith(s, ps[i])
  }

  /** `sub` occurs in `s` starting at index `j`. */
  predicate OccursAt(s: string, sub: string, j: int) {
    0 <= j && j + |sub| <= |s| && s[j..j + |sub|] == sub
  }

  lemma OccursShift(s: string, sub: string)
    requires |s| > 0
    ensures forall j :: 1 <= j ==> (OccursAt(s, sub, j) <==> OccursAt(s[1..], sub, j - 1))
  {
    forall j | 1 <= j
      ensures OccursAt(s, sub, j) <==> OccursAt(s[1..], sub, j - 1)
    {
      if j + |sub| <= |s| {
        var t := s[1..];
        assert forall k :: j <= k < j + |sub| ==> s[k] == t[k - 1];
        assert s[j..j + |sub|] == t[j - 1..j - 1 + |sub|];
      }
    }
  }

  /** Index of the first occurrence of `sub` in `s`, if any. */
  function IndexOf(s: string, sub: string): (r: Option<nat>)
    ensures r.Some? ==> OccursAt(s, sub, r.value)
    ensures r.Some? ==> forall j :: 0 <= j < r.value ==> !OccursAt(s, sub, j)
    ensures r.None? ==> forall j :: !OccursAt(s, sub, j)
    decreases |s|
  {
    if |sub| > |s| then None
    else if s[..|sub|] == sub then Some(0)
    else
      OccursShift(s, sub);
      match IndexOf(s[1..], sub)
      case None => None
      case Some(k) => Some(k + 1)
  }

  /** `sub in s` */
  predicate Contains(s: string, sub: string) {
    IndexOf(s, sub).Some?
  }

  lemma ContainsAt(s: string, sub: string, j: nat)
    requires OccursAt(s, sub, j)
    ensures Contains(s, sub)
  {
  }

  /** The first occurrence is the one with no occurrence before it. */
  lemma IndexOfIs(s: string, sub: string, i: nat)
    requires OccursAt(s, sub, i) && forall j :: 0 <= j < i ==> !OccursAt(s, sub, j)
    ensures IndexOf(s, sub) == Some(i)
  {
  }

  lemma OccursShiftBy(s: string, sub: string, k: nat)
    requires k <= |s|
    ensures forall j :: k <= j ==> (OccursAt(s, sub, j) <==> OccursAt(s[k..], sub, j - k))
  {
    forall j | k <= j ensures OccursAt(s, sub, j) <==> OccursAt(s[k..], sub, j - k) {
      if j + |sub| <= |s| {
        assert s[k..][j - k..j - k + |sub|] == s[j..j + |sub|];
      }
    }
  }

  /** Searching past a prefix that holds no occurrence. */
  lemma IndexOfSkip(s: string, sub: string, k: nat, i: nat)
    requires k <= |s|
    requires forall j :: 0 <= j < k ==> !OccursAt(s, sub, j)
    requires IndexOf(s[k..], sub) == Some(i)
    ensures IndexOf(s, sub) == Some(k + i)
  {
    OccursShiftBy(s, sub, k);
    assert OccursAt(s, sub, k + i);
    forall j | 0 <= j < k + i ensures !OccursAt(s, sub, j) {
      if j >= k {
        assert !OccursAt(s[k..], sub, j - k);
      }
    }
    IndexOfIs(s, sub, k + i);
  }

  /** The first occurrence is found by the first character: no earlier position holds it. */
  lemma IndexOfFirstChar(s: string, sub: string, i: nat)
    requires |sub| > 0 && OccursAt(s, sub, i)
    requires forall j :: 0 <= j < i ==> s[j] != sub[0]
    ensures IndexOf(s, sub) == Some(i)
  {
    forall j | 0 <= j < i ensures !OccursAt(s, sub, j) {
      if j + |sub| <= |s| { assert s[j..j + |sub|][0] == s[j]; }
    }
  }

  /** A string that does not hold a character does not contain it as a one-character string. */
  lemma NotContainsChar(s: string, a: char)
    requires a !in s
    ensures !Contains(s, [a])
  {
    OccursChar(s, a);
  }

  /** An occurrence in a prefix is an occurrence in the whole string. */
  lemma OccursInPrefix(s: string, sub: string, i: nat)
    requires i <= |s|
    ensures forall j :: OccursAt(s[..i], sub, j) ==> OccursAt(s, sub, j)
  {
    forall j | OccursAt(s[..i], sub, j) ensures s[j..j + |sub|] == s[..i][j..j + |sub|] {
    }
  }

  // ---------------------------------------------------------------- strip

  /** `s.lstrip()` */
  function LStrip(s: string): (r: string)
    ensures |r| <= |s| && r == s[|s| - |r|..]
    ensures r == [] || !IsSpace(r[0])
    ensures forall i :: 0 <= i < |s| - |r| ==> IsSpace(s[i])
  {
    if s != [] && IsSpace(s[0]) then LStrip(s[1..]) else s
  }

  /** `s.rstrip()` */
  function RStrip(s: string): (r: string)
    ensures |r| <= |s| && r == s[..|r|]
    ensures r == [] || !IsSpace(r[|r| - 1])
    ensures forall i :: |r| <= i < |s| ==> IsSpace(s[i])
  {
    if s != [] && IsSpace(s[|s| - 1]) then RStrip(s[..|s| - 1]) else s
  }

  /** `s.strip()` */
  function Strip(s: string): (r: string)
    ensures r == [] || (!IsSpace(r[0]) && !IsSpace(r[|r| - 1]))
  {
    RStrip(LStrip(s))
  }

  /** A string without surrounding whitespace is its own strip. */
  lemma StripNoSurrounding(s: string)
    requires s == [] || (!IsSpace(s[0]) && !IsSpace(s[|s| - 1]))
    ensures Strip(s) == s
  {
  }

  /** `s.lstrip(chars)`: removes leading characters that belong to the set. */
  function LStripChars(s: string, cs: set<char>): (r: string)
    ensures |r| <= |s| && r == s[|s| - |r|..]
    ensures r == [] || r[0] !in cs
    ensures forall i :: 0 <= i < |s| - |r| ==> s[i] in cs
  {
    if s != [] && s[0] in cs then
      var r := LStripChars(s[1..], cs);
      assert s[1..][|s| - 1 - |r|..] == s[|s| - |r|..];
      assert forall i | 1 <= i < |s| :: s[i] == s[1..][i - 1];
      r
    else s
  }

  /** `s.rstrip(chars)` */
  function RStripChars(s: string, cs: set<char>): (r: string)
    ensures |r| <= |s| && r == s[..|r|]
    ensures r == [] || r[|r| - 1] !in cs
    ensures forall i :: |r| <= i < |s| ==> s[i] in cs
  {
    if s != [] && s[|s| - 1] in cs then
      var r := RStripChars(s[..|s| - 1], cs);
      assert s[..|s| - 1][..|r|] == s[..|r|];
      assert forall i | 0 <= i < |s| - 1 :: s[i] == s[..|s| - 1][i];
      r
    else s
  }

  /** `s.strip(chars)`: a strip of a character SET from both ends, not of a prefix or suffix. */
  function StripChars(s: string, cs: set<char>): (r: string)
    ensures r == [] || (r[0] !in cs && r[|r| - 1] !in cs)
  {
    RStripChars(LStripChars(s, cs), cs)
  }

  /** A text that begins or ends with a stripped character is not what stripping gives. */
  lemma StripCharsNotTo(s: string, t: string, cs: set<char>)
    requires t != [] && (t[0] in cs || t[|t| - 1] in cs)
    ensures StripChars(s, cs) != t
  {
    var r := StripChars(s, cs);
    if t[0] in cs {
      assert r == [] || r[0] != t[0];
    } else {
      assert r == [] || r[|r| - 1] != t[|t| - 1];
    }
  }

  /** Left-stripping a prefix of set characters stops at the first character outside the set. */
  lemma {:induction false} LStripCharsPrefix(p: string, rest: string, cs: set<char>)
    requires forall i | 0 <= i < |p| :: p[i] in cs
    requires |rest| > 0 && rest[0] !in cs
    ensures LStripChars(p + rest, cs) == rest
    decreases |p|
  {
    if p == [] {
      assert p + rest == rest;
    } else {
      assert (p + rest)[1..] == p[1..] + rest;
      LStripCharsPrefix(p[1..], rest, cs);
    }
  }

  /** Right-stripping a suffix of set characters stops at the last character outside the set. */
  lemma {:induction false} RStripCharsSuffix(body: string, q: string, cs: set<char>)
    requires forall i | 0 <= i < |q| :: q[i] in cs
    requires |body| > 0 && body[|body| - 1] !in cs
    ensures RStripChars(body + q, cs) == body
    decreases |q|
  {
    if q == [] {
      assert body + q == body;
    } else {
      assert (body + q)[..|body + q| - 1] == body + q[..|q| - 1];
      RStripCharsSuffix(body, q[..|q| - 1], cs);
    }
  }

  /** Stripping a character set from a body framed by characters outside the set, surrounded
      only by characters of the set, leaves exactly the body. */
  lemma StripCharsFramed(p: string, body: string, q: string, cs: set<char>)
    requires forall i | 0 <= i < |p| :: p[i] in cs
    requires forall i | 0 <= i < |q| :: q[i] in cs
    requires |body| > 0 && body[0] !in cs && body[|body| - 1] !in cs
    ensures StripChars(p + body + q, cs) == body
  {
    assert p + body + q == p + (body + q);
    LStripCharsPrefix(p, body + q, cs);
    RStripCharsSuffix(body, q, cs);
  }

  /** `s.removeprefix(p)` */
  function RemovePrefix(s: string, p: string): (r: string)
    ensures StartsWith(s, p) ==> s == p + r
    ensures !StartsWith(s, p) ==> r == s
  {
    if StartsWith(s, p) then s[|p|..] else s
  }

  // ---------------------------------------------------------------- split, join, replace

  /** `s.split(sep)` for a non-empty separator. */
  function Split(s: string, sep: string): (r: seq<string>)
    requires |sep| > 0
    ensures |r| >= 1
    decreases |s|
  {
    match IndexOf(s, sep)
    case None => [s]
    case Some(i) => [s[..i]] + Split(s[i + |sep|..], sep)
  }

  /** `sep.join(parts)` */
  function Join(parts: seq<string>, sep: string): string {
    if |parts| == 0 then ""
    else if |parts| == 1 then parts[0]
    else parts[0] + sep + Join(parts[1..], sep)
  }

  /** Joining the pieces of a split with the same separator gives the string back. */
  lemma {:induction false} JoinSplit(s: string, sep: string)
    requires |sep| > 0
    ensures Join(Split(s, sep), sep) == s
    decreases |s|
  {
    match IndexOf(s, sep)
    case None =>
    case Some(i) =>
      var rest := s[i + |sep|..];
      var tail := Split(rest, sep);
      JoinSplit(rest, sep);
      assert Split(s, sep) == [s[..i]] + tail;
      assert ([s[..i]] + tail)[1..] == tail;
      assert Join([s[..i]] + tail, sep) == s[..i] + sep + Join(tail, sep);
      assert s == s[..i] + sep + rest;
  }

  /** No piece of a split contains the separator. */
  lemma {:induction false} SplitPiecesFree(s: string, sep: string)
    requires |sep| > 0
    ensures forall k :: 0 <= k < |Split(s, sep)| ==> !Contains(Split(s, sep)[k], sep)
    decreases |s|
  {
    match IndexOf(s, sep)
    case None =>
    case Some(i) =>
      SplitPiecesFree(s[i + |sep|..], sep);
      OccursInPrefix(s, sep, i);
      assert forall j :: OccursAt(s[..i], sep, j) ==> j < i;
  }

  /** Splitting on a one-character separator: a separator-free head is the first piece. */
  lemma SplitCharCons(a: string, c: char, b: string)
    requires c !in a
    ensures Split(a + [c] + b, [c]) == [a] + Split(b, [c])
  {
    var s := a + [c] + b;
    assert s[|a|..|a| + 1] == [c];
    assert forall j :: 0 <= j < |a| ==> s[j] == a[j];
    IndexOfFirstChar(s, [c], |a|);
    assert s[..|a|] == a;
    assert s[|a| + 1..] == b;
  }

  /** A string without the separator character splits into itself. */
  lemma SplitCharNone(b: string, c: char)
    requires c !in b
    ensures Split(b, [c]) == [b]
  {
    NotContainsChar(b, c);
  }

  /** Splitting a join of separator-free pieces on a one-character separator gives the pieces back. */
  lemma {:induction false} SplitJoinChar(parts: seq<string>, c: char)
    requires |parts| >= 1
    requires forall k :: 0 <= k < |parts| ==> c !in parts[k]
    ensures Split(Join(parts, [c]), [c]) == parts
    decreases |parts|
  {
    if |parts| == 1 {
      SplitCharNone(parts[0], c);
    } else {
      var rest := parts[1..];
      SplitJoinChar(rest, c);
      assert Join(parts, [c]) == parts[0] + [c] + Join(rest, [c]);
      SplitCharCons(parts[0], c, Join(rest, [c]));
      assert parts == [parts[0]] + rest;
    }
  }

  /** `s.replace(pat, rep)`: every non-overlapping occurrence, scanning left to right. */
  function ReplaceAll(s: string, pat: string, rep: string): (r: string)
    requires |pat| > 0
    ensures !Contains(s, pat) ==> r == s
    decreases |s|
  {
    match IndexOf(s, pat)
    case None => s
    case Some(i) => s[..i] + rep + ReplaceAll(s[i + |pat|..], pat, rep)
  }

  /** A replacement whose only occurrence ends the string. */
  lemma ReplaceAllLast(s: string, pat: string, rep: string, i: nat)
    requires |pat| > 0 && IndexOf(s, pat) == Some(i) && i + |pat| == |s|
    ensures ReplaceAll(s, pat, rep) == s[..i] + rep
  {
    assert ReplaceAll(s[i + |pat|..], pat, rep) == [];
  }

  /** Replacing one character by another never changes the length. */
  lemma {:induction false} ReplaceCharLength(s: string, a: char, b: char)
    ensures |ReplaceAll(s, [a], [b])| == |s|
    decreases |s|
  {
    match IndexOf(s, [a])
    case None =>
    case Some(i) => ReplaceCharLength(s[i + 1..], a, b);
  }

  /** A single character occurs exactly where the string holds it. */
  lemma OccursChar(s: string, a: char)
    ensures forall j :: 0 <= j < |s| ==> (OccursAt(s, [a], j) <==> s[j] == a)
  {
    forall j | 0 <= j < |s| ensures s[j..j + 1] == [s[j]] {
    }
  }

  /** Replacing a character by a different one removes every occurrence of it. */
  lemma {:induction false} ReplaceCharRemoves(s: string, a: char, b: char)
    requires a != b
    ensures a !in ReplaceAll(s, [a], [b])
    decreases |s|
  {
    OccursChar(s, a);
    match IndexOf(s, [a])
    case None =>
    case Some(i) =>
      ReplaceCharRemoves(s[i + 1..], a, b);
      assert a !in s[..i];
  }

  /** Every character of a one-character replacement is the new character or one of the old string. */
  lemma {:induction false} ReplaceCharFrom(s: string, a: char, b: char)
    ensures forall c | c in ReplaceAll(s, [a], [b]) :: c == b || c in s
    decreases |s|
  {
    match IndexOf(s, [a])
    case None =>
    case Some(i) =>
      ReplaceCharFrom(s[i + 1..], a, b);
      assert forall c | c in s[i + 1..] :: c in s;
      assert forall c | c in s[..i] :: c in s;
  }

  /** A replacement with nothing to replace is the identity. */
  lemma ReplaceAbsent(s: string, a: char, b: char)
    requires a !in s
    ensures ReplaceAll(s, [a], [b]) == s
  {
    OccursChar(s, a);
  }

  // ---------------------------------------------------------------- lines

  /** The characters `str.splitlines()` breaks at ("\r\n" counts once). */
  const SplitLinesBreaks: set<char> :=
    {'\n', '\r', '\U{0b}', '\U{0c}', '\U{1c}', '\U{1d}', '\U{1e}', '\U{85}', '\U{2028}', '\U{2029}'}

  /** The characters a text file read line by line breaks at (universal newlines). */
  const FileBreaks: set<char> := {'\n', '\r'}

  /** Index of the first break character, or |s| when there is none. */
  function FirstBreak(s: string, breaks: set<char>): (i: nat)
    ensures i <= |s|
    ensures i < |s| ==> s[i] in breaks
    ensures forall j :: 0 <= j < i ==> s[j] !in breaks
  {
    if s == [] then 0 else if s[0] in breaks then 0 else 1 + FirstBreak(s[1..], breaks)
  }

  /** Lines of `s` without their terminators, a terminator being one break character or "\r\n";
      no empty line is produced after a final terminator. */
  function LinesBy(s: string, breaks: set<char>): (r: seq<string>)
    ensures forall k :: 0 <= k < |r| ==> forall j :: 0 <= j < |r[k]| ==> r[k][j] !in breaks
    decreases |s|
  {
    if s == [] then []
    else
      var i := FirstBreak(s, breaks);
      if i == |s| then [s]
      else
        var k := if s[i] == '\r' && i + 1 < |s| && s[i + 1] == '\n' then 2 else 1;
        [s[..i]] + LinesBy(s[i + k..], breaks)
  }

  /** `text.splitlines()` */
  function SplitLines(s: string): seq<string> {
    LinesBy(s, SplitLinesBreaks)
  }

  /** The lines a Python text file yields, terminators removed. */
  function FileLines(s: string): seq<string> {
    LinesBy(s, FileBreaks)
  }

  lemma {:induction false} FirstBreakAt(s: string, breaks: set<char>, i: nat)
    requires i < |s| && s[i] in breaks
    requires forall j :: 0 <= j < i ==> s[j] !in breaks
    ensures FirstBreak(s, breaks) == i
  {
    if i > 0 {
      FirstBreakAt(s[1..], breaks, i - 1);
    }
  }

  /** A break-free line followed by "\n" is one line of the text. */
  lemma LinesByCons(x: string, rest: string, breaks: set<char>)
    requires '\n' in breaks
    requires forall j :: 0 <= j < |x| ==> x[j] !in breaks
    ensures LinesBy(x + "\n" + rest, breaks) == [x] + LinesBy(rest, breaks)
  {
    var s := x + "\n" + rest;
    assert s[|x|] == '\n';
    assert forall j :: 0 <= j < |x| ==> s[j] == x[j];
    FirstBreakAt(s, breaks, |x|);
    assert s[..|x|] == x;
    assert s[|x| + 1..] == rest;
  }

  /** No line break in a piece of text. */
  predicate BreakFree(s: string) {
    forall j :: 0 <= j < |s| ==> s[j] !in FileBreaks
  }

  /** Text written line by line, every line followed by "\n". */
  function Terminated(lines: seq<string>): string
    decreases |lines|
  {
    if lines == [] then "" else lines[0] + "\n" + Terminated(lines[1..])
  }

  /** A field that fits in one cell of a tab-separated line: no tab, no line break. */
  predicate CellText(s: string) {
    '\t' !in s && BreakFree(s)
  }

  /** Writing one more line appends it and its newline. */
  lemma {:induction false} TerminatedSnoc(lines: seq<string>, x: string)
    ensures Terminated(lines + [x]) == Terminated(lines) + x + "\n"
    decreases |lines|
  {
    if lines == [] {
      assert lines + [x] == [x];
    } else {
      assert (lines + [x])[1..] == lines[1..] + [x];
      TerminatedSnoc(lines[1..], x);
    }
  }

  /** Lines without breaks, written one per line, read back as the same lines. */
  lemma {:induction false} TerminatedLines(lines: seq<string>)
    requires forall k :: 0 <= k < |lines| ==> BreakFree(lines[k])
    ensures FileLines(Terminated(lines)) == lines
    decreases |lines|
  {
    if lines != [] {
      var rest := lines[1..];
      assert BreakFree(lines[0]);
      assert forall k :: 0 <= k < |rest| ==> BreakFree(rest[k]) by {
        forall k | 0 <= k < |rest| ensures BreakFree(rest[k]) {
          assert rest[k] == lines[k + 1];
        }
      }
      LinesByCons(lines[0], Terminated(rest), FileBreaks);
      TerminatedLines(rest);
      assert lines == [lines[0]] + rest;
    }
  }

  /** Header lines and body lines without breaks, written one per line, read back as the same lines. */
  lemma TerminatedHeaderLines(header: seq<string>, lines: seq<string>)
    requires forall k :: 0 <= k < |header| ==> BreakFree(header[k])
    requires forall k :: 0 <= k < |lines| ==> BreakFree(lines[k])
    ensures FileLines(Terminated(header + lines)) == header + lines
  {
    var all := header + lines;
    forall k | 0 <= k < |all| ensures BreakFree(all[k]) {
      if k < |header| {
        assert all[k] == header[k];
      } else {
        assert all[k] == lines[k - |header|];
      }
    }
    TerminatedLines(all);
  }

  // ---------------------------------------------------------------- integers

  /** Value of a string of decimal digits and underscores (underscores are skipped). */
  function DigitsValue(s: string): nat {
    if s == [] then 0
    else if IsDigit(s[|s| - 1]) then DigitsValue(s[..|s| - 1]) * 10 + (s[|s| - 1] as int - '0' as int)
    else DigitsValue(s[..|s| - 1])
  }

  /** Python's integer literal body: digits, with single underscores between digits. */
  predicate WellFormedDigits(s: string) {
    |s| > 0 && IsDigit(s[0]) && IsDigit(s[|s| - 1])
    && (forall i :: 0 <= i < |s| ==> IsDigit(s[i]) || s[i] == '_')
    && (forall i :: 0 <= i < |s| - 1 ==> !(s[i] == '_' && s[i + 1] == '_'))
  }

  /** `int(s)` for ASCII decimal text: surrounding whitespace and one sign allowed; anything else fails. */
  function ParseInt(s: string): (r: Option<int>)
    ensures r.Some? <==> (var t := Strip(s);
                          (|t| > 0 && (t[0] == '+' || t[0] == '-') && WellFormedDigits(t[1..]))
                          || WellFormedDigits(t))
  {
    var t := Strip(s);
    if |t| > 0 && (t[0] == '+' || t[0] == '-') then
      var v: int := DigitsValue(t[1..]);
      if WellFormedDigits(t[1..]) then Some(if t[0] == '-' then -v else v)
      else None
    else if WellFormedDigits(t) then Some(DigitsValue(t))
    else None
  }

  /** Decimal text of a natural number. */
  function NatToString(n: nat): (r: string)
    ensures |r| > 0 && forall i :: 0 <= i < |r| ==> IsDigit(r[i])
    decreases n
  {
    if n < 10 then ['0' + n as char] else NatToString(n / 10) + ['0' + (n % 10) as char]
  }

  lemma {:induction false} DigitsValueNatToString(n: nat)
    ensures DigitsValue(NatToString(n)) == n
    decreases n
  {
    var r := NatToString(n);
    if n >= 10 {
      DigitsValueNatToString(n / 10);
      assert r[..|r| - 1] == NatToString(n / 10);
    }
  }

  /** The decimal text of a taxonomy id reads back as that id. */
  lemma ParseIntNatToString(n: nat)
    ensures ParseInt(NatToString(n)) == Some(n)
  {
    var r := NatToString(n);
    assert !IsSpace(r[0]) && !IsSpace(r[|r| - 1]);
    StripNoSurrounding(r);
    assert Strip(r) == r;
    assert WellFormedDigits(r);
    DigitsValueNatToString(n);
  }
}
