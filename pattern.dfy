/** The small regular-expression language that the classifiers build from exemplar names:
    literal characters, an optional one-character class (`[_-]?` or `[ -]?`) and an optional
    locant group `(-.*-)?`. Patterns are built as text (exactly as the scripts build them),
    read into tokens by `Parse`, and searched case-insensitively by `Search`, which is proved
    against the language definition `Accepts`. */
module Pattern {
  import opened Text

  /** Which optional separator class a pattern uses. */
  datatype SepKind = UnderscoreOrHyphen | SpaceOrHyphen

  datatype Token = Lit(c: char) | OptSep(kind: SepKind) | OptLocant

  function SepChars(k: SepKind): set<char> {
    match k
    case UnderscoreOrHyphen => {'_', '-'}
    case SpaceOrHyphen => {' ', '-'}
  }

  /** Regex text of the optional separator used by the record classifiers. */
  const UnderscoreSepText: string := "[_-]?"
  /** Regex text of the optional separator used by the InterPro selection script. */
  const SpaceSepText: string := "[ -]?"
  /** Regex text of the optional locant group, e.g. the "-1(15),8-" in "dolasta-1(15),8-diene". */
  const LocantText: string := "(-.*-)?"

  /** Reads pattern text into tokens: the three group texts above are read as their tokens,
      every other character as a literal. */
  function Parse(p: string): (r: seq<Token>)
    ensures |r| <= |p|
    decreases |p|
  {
    if p == [] then []
    else if StartsWith(p, UnderscoreSepText) then [OptSep(UnderscoreOrHyphen)] + Parse(p[5..])
    else if StartsWith(p, SpaceSepText) then [OptSep(SpaceOrHyphen)] + Parse(p[5..])
    else if StartsWith(p, LocantText) then [OptLocant] + Parse(p[7..])
    else [Lit(p[0])] + Parse(p[1..])
  }

  /** Letters compare case-insensitively (Python's `re.IGNORECASE`, ASCII letters). */
  predicate CharMatches(c: char, d: char) {
    Lower(c) == Lower(d)
  }

  /** `w` begins with a complete locant group `-.*-` of length `k`; `.` does not match a newline. */
  predicate LocantSpan(w: string, k: int) {
    2 <= k <= |w| && w[0] == '-' && w[k - 1] == '-' && forall j | 1 <= j < k - 1 :: w[j] != '\n'
  }

  /** The language of a token sequence: `w` as a whole matches `p`. */
  ghost predicate Accepts(p: seq<Token>, w: string)
    decreases |p|
  {
    if p == [] then w == []
    else
      match p[0]
      case Lit(c) => |w| > 0 && CharMatches(c, w[0]) && Accepts(p[1..], w[1..])
      case OptSep(k) => Accepts(p[1..], w) || (|w| > 0 && w[0] in SepChars(k) && Accepts(p[1..], w[1..]))
      case OptLocant => Accepts(p[1..], w) || exists k :: LocantSpan(w, k) && Accepts(p[1..], w[k..])
  }

  /** Some prefix of `s` matches `p` (a match anchored at the start of `s`). */
  function MatchPrefix(p: seq<Token>, s: string): bool
    decreases |p|
  {
    if p == [] then true
    else
      match p[0]
      case Lit(c) => |s| > 0 && CharMatches(c, s[0]) && MatchPrefix(p[1..], s[1..])
      case OptSep(k) => MatchPrefix(p[1..], s) || (|s| > 0 && s[0] in SepChars(k) && MatchPrefix(p[1..], s[1..]))
      case OptLocant => MatchPrefix(p[1..], s) || exists k | 2 <= k <= |s| :: LocantSpan(s, k) && MatchPrefix(p[1..], s[k..])
  }

  /** `re.search(pattern, s, flags=re.IGNORECASE)` succeeds. */
  function Search(p: seq<Token>, s: string): bool {
    exists i | 0 <= i <= |s| :: MatchPrefix(p, s[i..])
  }

  /** The matcher is exact: it succeeds iff some prefix of `s` is in the language of `p`. */
  lemma {:induction false} MatchPrefixSound(p: seq<Token>, s: string)
    ensures MatchPrefix(p, s) <==> exists j :: 0 <= j <= |s| && Accepts(p, s[..j])
    decreases |p|
  {
    if p == [] {
      assert Accepts(p, s[..0]);
    } else {
      var q := p[1..];
      match p[0]
      case Lit(c) =>
        if |s| > 0 {
          MatchPrefixSound(q, s[1..]);
          forall j | 1 <= j <= |s| ensures s[..j][1..] == s[1..][..j - 1] {}
          if MatchPrefix(p, s) {
            var j :| 0 <= j <= |s[1..]| && Accepts(q, s[1..][..j]);
            assert Accepts(p, s[..j + 1]);
          }
        }
      case OptSep(k) =>
        MatchPrefixSound(q, s);
        if |s| > 0 {
          MatchPrefixSound(q, s[1..]);
          forall j | 1 <= j <= |s| ensures s[..j][1..] == s[1..][..j - 1] {}
          if |s| > 0 && s[0] in SepChars(k) && MatchPrefix(q, s[1..]) {
            var j :| 0 <= j <= |s[1..]| && Accepts(q, s[1..][..j]);
            assert Accepts(p, s[..j + 1]);
          }
        }
        if MatchPrefix(q, s) {
          var j :| 0 <= j <= |s| && Accepts(q, s[..j]);
          assert Accepts(p, s[..j]);
        }
      case OptLocant =>
        MatchPrefixSound(q, s);
        if MatchPrefix(q, s) {
          var j :| 0 <= j <= |s| && Accepts(q, s[..j]);
          assert Accepts(p, s[..j]);
        }
        forall k | 2 <= k <= |s| && LocantSpan(s, k)
          ensures MatchPrefix(q, s[k..]) <==> exists j :: k <= j <= |s| && Accepts(q, s[..j][k..])
        {
          MatchPrefixSound(q, s[k..]);
          forall j | k <= j <= |s| ensures s[..j][k..] == s[k..][..j - k] {}
          if MatchPrefix(q, s[k..]) {
            var j :| 0 <= j <= |s[k..]| && Accepts(q, s[k..][..j]);
            assert Accepts(q, s[..j + k][k..]);
          }
        }
        forall j | 0 <= j <= |s| && Accepts(p, s[..j]) ensures MatchPrefix(p, s) {
          if !Accepts(q, s[..j]) {
            var k :| LocantSpan(s[..j], k) && Accepts(q, s[..j][k..]);
            assert LocantSpan(s, k);
          }
        }
        if MatchPrefix(p, s) && !MatchPrefix(q, s) {
          var k :| 2 <= k <= |s| && LocantSpan(s, k) && MatchPrefix(q, s[k..]);
          var j :| k <= j <= |s| && Accepts(q, s[..j][k..]);
          assert LocantSpan(s[..j], k);
          assert Accepts(p, s[..j]);
        }
    }
  }

  /** `Search` finds exactly the substrings of `s` that are in the language of `p`. */
  lemma SearchSound(p: seq<Token>, s: string)
    ensures Search(p, s) <==> exists i, j :: 0 <= i <= j <= |s| && Accepts(p, s[i..j])
  {
    forall i | 0 <= i <= |s|
      ensures MatchPrefix(p, s[i..]) <==> exists j :: i <= j <= |s| && Accepts(p, s[i..j])
    {
      MatchPrefixSound(p, s[i..]);
      forall j | i <= j <= |s| ensures s[i..][..j - i] == s[i..j] {}
      if MatchPrefix(p, s[i..]) {
        var j :| 0 <= j <= |s[i..]| && Accepts(p, s[i..][..j]);
        assert Accepts(p, s[i..i + j]);
      }
    }
    if exists i, j :: 0 <= i <= j <= |s| && Accepts(p, s[i..j]) {
      var i, j :| 0 <= i <= j <= |s| && Accepts(p, s[i..j]);
      assert MatchPrefix(p, s[i..]);
    }
    if Search(p, s) {
      var i :| 0 <= i <= |s| && MatchPrefix(p, s[i..]);
      var j :| i <= j <= |s| && Accepts(p, s[i..j]);
    }
  }

  /** `s` and `t` differ at most in the case of their letters. */
  predicate SameUpToCase(s: string, t: string) {
    |s| == |t| && forall i :: 0 <= i < |s| ==> Lower(s[i]) == Lower(t[i])
  }

  lemma SameUpToCaseLower(s: string, t: string)
    requires LowerStr(s) == LowerStr(t)
    ensures SameUpToCase(s, t)
  {
    assert forall i :: 0 <= i < |s| ==> Lower(s[i]) == LowerStr(s)[i];
  }

  /** Anchored matching does not see the case of letters. */
  lemma {:induction false} MatchPrefixIgnoresCase(p: seq<Token>, s: string, t: string)
    requires SameUpToCase(s, t)
    ensures MatchPrefix(p, s) == MatchPrefix(p, t)
    decreases |p|
  {
    if p != [] {
      var q := p[1..];
      assert forall i :: 0 <= i < |s| ==> (s[i] == t[i] || (IsAsciiLetter(s[i]) && IsAsciiLetter(t[i])));
      match p[0]
      case Lit(c) =>
        if |s| > 0 { MatchPrefixIgnoresCase(q, s[1..], t[1..]); }
      case OptSep(k) =>
        MatchPrefixIgnoresCase(q, s, t);
        if |s| > 0 { MatchPrefixIgnoresCase(q, s[1..], t[1..]); }
      case OptLocant =>
        MatchPrefixIgnoresCase(q, s, t);
        forall k | 2 <= k <= |s|
          ensures (LocantSpan(s, k) && MatchPrefix(q, s[k..])) == (LocantSpan(t, k) && MatchPrefix(q, t[k..]))
        {
          MatchPrefixIgnoresCase(q, s[k..], t[k..]);
        }
    }
  }

  /** Searching does not see the case of letters: `re.IGNORECASE`. */
  lemma SearchIgnoresCase(p: seq<Token>, s: string, t: string)
    requires LowerStr(s) == LowerStr(t)
    ensures Search(p, s) == Search(p, t)
  {
    SameUpToCaseLower(s, t);
    forall i | 0 <= i <= |s| ensures MatchPrefix(p, s[i..]) == MatchPrefix(p, t[i..]) {
      MatchPrefixIgnoresCase(p, s[i..], t[i..]);
    }
  }

  // ---------------------------------------------------------------- reading and matching pieces of patterns

  /** The literal tokens of a plain string. */
  function Lits(a: string): (r: seq<Token>)
    ensures |r| == |a| && forall i :: 0 <= i < |a| ==> r[i] == Lit(a[i])
  {
    seq(|a|, i requires 0 <= i < |a| => Lit(a[i]))
  }

  lemma StartsWithHead(s: string, t: string)
    requires |t| > 1
    ensures StartsWith(s, t) ==> s[0] == t[0] && s[1] == t[1]
  {
    if StartsWith(s, t) {
      assert s[..|t|][0] == s[0] && s[..|t|][1] == s[1];
    }
  }

  /** Text with no `[` and no `(` is read as literals. */
  lemma {:induction false} ParseLits(a: string, b: string)
    requires '[' !in a && '(' !in a
    ensures Parse(a + b) == Lits(a) + Parse(b)
    decreases |a|
  {
    if a != [] {
      var s := a + b;
      assert s[0] == a[0];
      StartsWithHead(s, UnderscoreSepText);
      StartsWithHead(s, SpaceSepText);
      StartsWithHead(s, LocantText);
      assert s[1..] == a[1..] + b;
      ParseLits(a[1..], b);
      assert Lits(a) == [Lit(a[0])] + Lits(a[1..]);
    } else {
      assert a + b == b;
    }
  }

  lemma ParseLocantText(b: string)
    ensures Parse(LocantText + b) == [OptLocant] + Parse(b)
  {
    var s := LocantText + b;
    assert s[0] == '(';
    StartsWithHead(s, UnderscoreSepText);
    StartsWithHead(s, SpaceSepText);
    assert s[..7] == LocantText;
    assert s[7..] == b;
  }

  lemma ParseUnderscoreSepText(b: string)
    ensures Parse(UnderscoreSepText + b) == [OptSep(UnderscoreOrHyphen)] + Parse(b)
  {
    var s := UnderscoreSepText + b;
    assert s[..5] == UnderscoreSepText;
    assert s[5..] == b;
  }

  lemma ParseSpaceSepText(b: string)
    ensures Parse(SpaceSepText + b) == [OptSep(SpaceOrHyphen)] + Parse(b)
  {
    var s := SpaceSepText + b;
    assert s[0] == '[' && s[1] == ' ';
    StartsWithHead(s, UnderscoreSepText);
    assert s[..5] == SpaceSepText;
    assert s[5..] == b;
  }

  /** Literal tokens accept the same characters in any case. */
  lemma {:induction false} AcceptsLits(a: string, p: seq<Token>, u: string, w: string)
    requires |u| == |a| && forall i :: 0 <= i < |a| ==> CharMatches(a[i], u[i])
    requires Accepts(p, w)
    ensures Accepts(Lits(a) + p, u + w)
    decreases |a|
  {
    if a != [] {
      AcceptsLits(a[1..], p, u[1..], w);
      assert (Lits(a) + p)[0] == Lit(a[0]);
      assert (Lits(a) + p)[1..] == Lits(a[1..]) + p;
      assert (u + w)[0] == u[0];
      assert (u + w)[1..] == u[1..] + w;
    } else {
      assert Lits(a) + p == p;
      assert u + w == w;
    }
  }

  /** The optional locant group may match nothing. */
  lemma AcceptsLocantSkipped(p: seq<Token>, w: string)
    requires Accepts(p, w)
    ensures Accepts([OptLocant] + p, w)
  {
    assert ([OptLocant] + p)[1..] == p;
  }

  /** The optional locant group may match a hyphen-delimited span without newlines. */
  lemma AcceptsLocantTaken(p: seq<Token>, span: string, w: string)
    requires LocantSpan(span, |span|)
    requires Accepts(p, w)
    ensures Accepts([OptLocant] + p, span + w)
  {
    assert ([OptLocant] + p)[1..] == p;
    assert (span + w)[|span|..] == w;
    assert LocantSpan(span + w, |span|);
  }

  lemma AcceptsEmpty()
    ensures Accepts([], [])
  {
  }

  /** A match of a substring is found by `Search`. */
  lemma SearchFinds(p: seq<Token>, s: string, i: nat, j: nat)
    requires i <= j <= |s| && Accepts(p, s[i..j])
    ensures Search(p, s)
  {
    SearchSound(p, s);
  }

  // ---------------------------------------------------------------- builders shared by the two record classes

  const Suffixes: seq<string> := ["diene", "ene", "ol"]

  /** Spaces between words become an optional underscore or hyphen. */
  function SpacePattern(name: string): string {
    ReplaceAll(name, " ", UnderscoreSepText)
  }

  /** One step of the suffix rule: if the pattern ends with `suffix`, the locant group is
      inserted before EVERY occurrence of `suffix` (a global substitution). */
  function SuffixStep(p: string, suffix: string): string
    requires |suffix| > 0
  {
    if EndsWith(p, suffix) then ReplaceAll(p, suffix, LocantText + suffix) else p
  }

  /** Pattern text of a terpene exemplar: the space rule, then the suffix rule for
      "diene", "ene" and "ol" in that order, each step seeing the previous one's output. */
  function TerpenePattern(name: string): string {
    SuffixStep(SuffixStep(SuffixStep(SpacePattern(name), "diene"), "ene"), "ol")
  }

  /** Tokens of a terpene exemplar's pattern. */
  function TerpeneTokens(name: string): seq<Token> {
    Parse(TerpenePattern(name))
  }

  /** Tokens of a prenyltransferase exemplar's pattern (space rule only). */
  function PrenylTokens(name: string): seq<Token> {
    Parse(SpacePattern(name))
  }
}
