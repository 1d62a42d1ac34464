/** FASTA writing and reading (`fasta_parsing.py`): a writer for name/sequence pairs and a
    line-by-line reader that builds an insertion-ordered dictionary from identifier to sequence. */
module FastaParsing {
  import opened Wrappers
  import opened Text

  // ---------------------------------------------------------------- writing

  /** The text of one entry: a header line and one sequence line. */
  function EntryText(name: string, sequence: string): string {
    ">" + name + "\n" + sequence + "\n"
  }

  /** The text written for `zip(names, seqs)`: one entry per pair, stopping at the shorter list. */
  function FastaText(names: seq<string>, seqs: seq<string>): string
    decreases |names|
  {
    if names == [] || seqs == [] then ""
    else EntryText(names[0], seqs[0]) + FastaText(names[1..], seqs[1..])
  }

  /** `write_fasta`: the file contents, built entry by entry. */
  method WriteFasta(names: seq<string>, seqs: seq<string>) returns (text: string)
    ensures text == FastaText(names, seqs)
  {
    var n := if |names| < |seqs| then |names| else |seqs|;
    text := "";
    for i := 0 to n
      invariant text + FastaText(names[i..], seqs[i..]) == FastaText(names, seqs)
    {
      var entry := EntryText(names[i], seqs[i]);
      assert names[i..][1..] == names[i + 1..] && seqs[i..][1..] == seqs[i + 1..];
      assert FastaText(names[i..], seqs[i..]) == entry + FastaText(names[i + 1..], seqs[i + 1..]);
      assert text + entry + FastaText(names[i + 1..], seqs[i + 1..])
          == text + (entry + FastaText(names[i + 1..], seqs[i + 1..]));
      text := text + entry;
    }
    assert names[n..] == [] || seqs[n..] == [];
  }

  // ---------------------------------------------------------------- dict(zip(...))

  /** `zip(xs, ys)`: pairs up to the shorter list. */
  function Zip(xs: seq<string>, ys: seq<string>): (r: seq<(string, string)>)
    ensures |r| == if |xs| < |ys| then |xs| else |ys|
    ensures forall i :: 0 <= i < |r| ==> r[i] == (xs[i], ys[i])
    decreases |xs|
  {
    if xs == [] || ys == [] then [] else [(xs[0], ys[0])] + Zip(xs[1..], ys[1..])
  }

  /** Position of key `k` in an ordered dictionary, or its length when absent. */
  function KeyIndex<V>(d: seq<(string, V)>, k: string): (i: nat)
    ensures i <= |d|
    ensures i < |d| ==> d[i].0 == k
    ensures forall j :: 0 <= j < i ==> d[j].0 != k
  {
    if d == [] then 0 else if d[0].0 == k then 0 else 1 + KeyIndex(d[1..], k)
  }

  /** `d[p.0] = p.1` on an insertion-ordered dictionary: a present key keeps its position. */
  function Assigned<V>(d: seq<(string, V)>, p: (string, V)): seq<(string, V)> {
    var i := KeyIndex(d, p.0);
    if i < |d| then d[i := p] else d + [p]
  }

  /** `dict(pairs)` as an insertion-ordered sequence: a repeated key keeps its first position
      and takes the later value. */
  function DictOf<V>(pairs: seq<(string, V)>): seq<(string, V)>
    decreases |pairs|
  {
    if pairs == [] then []
    else
      var d := DictOf(pairs[..|pairs| - 1]);
      var p := pairs[|pairs| - 1];
      var i := KeyIndex(d, p.0);
      if i < |d| then d[i := p] else d + [p]
  }

  /** The value the last pair with key `k` carries, if any. */
  function LastValue<V>(pairs: seq<(string, V)>, k: string): Option<V>
    decreases |pairs|
  {
    if pairs == [] then None
    else if pairs[|pairs| - 1].0 == k then Some(pairs[|pairs| - 1].1)
    else LastValue(pairs[..|pairs| - 1], k)
  }

  predicate DistinctKeys<V>(d: seq<(string, V)>) {
    forall i, j :: 0 <= i < j < |d| ==> d[i].0 != d[j].0
  }

  /** A dictionary built from pairs: its keys are distinct, every key of the pairs is in it, and
      each key maps to the value of the last pair carrying it. */
  lemma DictOfSpec<V>(pairs: seq<(string, V)>)
    ensures DistinctKeys(DictOf(pairs))
    ensures |DictOf(pairs)| <= |pairs|
    ensures forall j :: 0 <= j < |pairs| ==> KeyIndex(DictOf(pairs), pairs[j].0) < |DictOf(pairs)|
    ensures forall i :: 0 <= i < |DictOf(pairs)| ==> LastValue(pairs, DictOf(pairs)[i].0) == Some(DictOf(pairs)[i].1)
  {
    DictOfKeys(pairs);
    DictOfCovers(pairs);
    DictOfValues(pairs);
  }

  lemma {:induction false} DictOfKeys<V>(pairs: seq<(string, V)>)
    ensures DistinctKeys(DictOf(pairs)) && |DictOf(pairs)| <= |pairs|
    decreases |pairs|
  {
    if pairs != [] {
      var init, p := pairs[..|pairs| - 1], pairs[|pairs| - 1];
      DictOfKeys(init);
      var d := DictOf(init);
      var i := KeyIndex(d, p.0);
      var r := DictOf(pairs);
      forall a, b | 0 <= a < b < |r| ensures r[a].0 != r[b].0 {
        if i < |d| {
          assert r[a].0 == d[a].0 && r[b].0 == d[b].0;
        } else if b < |d| {
          assert r[a] == d[a] && r[b] == d[b];
        }
      }
    }
  }

  lemma {:induction false} DictOfCovers<V>(pairs: seq<(string, V)>)
    ensures forall j :: 0 <= j < |pairs| ==> KeyIndex(DictOf(pairs), pairs[j].0) < |DictOf(pairs)|
    decreases |pairs|
  {
    if pairs != [] {
      var init, p := pairs[..|pairs| - 1], pairs[|pairs| - 1];
      DictOfCovers(init);
      var d := DictOf(init);
      var i := KeyIndex(d, p.0);
      var r := DictOf(pairs);
      forall j | 0 <= j < |pairs|
        ensures KeyIndex(r, pairs[j].0) < |r|
      {
        if j < |pairs| - 1 {
          assert pairs[j] == init[j];
          var k := KeyIndex(d, init[j].0);
          assert r[k].0 == pairs[j].0;
        } else {
          assert r[if i < |d| then i else |d|].0 == p.0;
        }
      }
    }
  }

  lemma {:induction false} DictOfValues<V>(pairs: seq<(string, V)>)
    ensures forall i :: 0 <= i < |DictOf(pairs)| ==> LastValue(pairs, DictOf(pairs)[i].0) == Some(DictOf(pairs)[i].1)
    decreases |pairs|
  {
    if pairs != [] {
      var init, p := pairs[..|pairs| - 1], pairs[|pairs| - 1];
      DictOfValues(init);
      DictOfKeys(init);
      var d := DictOf(init);
      var i := KeyIndex(d, p.0);
      var r := DictOf(pairs);
      forall m | 0 <= m < |r|
        ensures LastValue(pairs, r[m].0) == Some(r[m].1)
      {
        if r[m].0 != p.0 {
          assert m < |d| && r[m] == d[m];
        } else if i < |d| && m != i {
          assert false;
        }
      }
    }
  }

  /** Pairs whose keys are already distinct make a dictionary with the same entries, in order. */
  lemma {:induction false} DictOfDistinct<V>(pairs: seq<(string, V)>)
    requires DistinctKeys(pairs)
    ensures DictOf(pairs) == pairs
    decreases |pairs|
  {
    if pairs != [] {
      var init := pairs[..|pairs| - 1];
      DictOfDistinct(init);
      assert KeyIndex(init, pairs[|pairs| - 1].0) == |init|;
      assert init + [pairs[|pairs| - 1]] == pairs;
    }
  }

  // ---------------------------------------------------------------- reading

  datatype FastaError =
    | SequenceBeforeId   // a sequence line before any header
    | NonAlphabetic      // a sequence line with a character that is neither a letter nor '-'
    | CountMismatch      // the numbers of identifiers and of sequences differ
    | NoSequences        // no header at all

  /** The reader's running state: identifiers, finished sequences and the pieces of the current one. */
  datatype ReadState = ReadState(ids: seq<string>, seqs: seq<string>, current: seq<string>)

  const Start := ReadState([], [], [])

  /** `str.isalpha()` (ASCII letters): non-empty and letters only. */
  predicate IsAlpha(s: string) {
    |s| > 0 && forall i :: 0 <= i < |s| ==> IsAsciiLetter(s[i])
  }

  /** The finished sequences once the current pieces, if any, are joined and appended. */
  function Flushed(st: ReadState): seq<string> {
    if st.current != [] then st.seqs + [Join(st.current, "")] else st.seqs
  }

  /** One line of the reading loop. */
  function ReadLine(st: ReadState, raw: string): Result<ReadState, FastaError> {
    var line := Strip(raw);
    if line == [] then Success(st)
    else if line[0] == '>' then
      Success(ReadState(st.ids + [ReplaceAll(line[1..], " ", "_")], Flushed(st), []))
    else if st.ids == [] then Failure(SequenceBeforeId)
    else if !IsAlpha(ReplaceAll(line, "-", "z")) then Failure(NonAlphabetic)
    else Success(st.(current := st.current + [line]))
  }

  /** The reading loop over the remaining lines; the first error ends it. */
  function ReadLines(st: ReadState, lines: seq<string>): Result<ReadState, FastaError>
    decreases |lines|
  {
    if lines == [] then Success(st)
    else
      match ReadLine(st, lines[0])
      case Failure(e) => Failure(e)
      case Success(next) => ReadLines(next, lines[1..])
  }

  /** After the loop: flush the last sequence, then check the counts. */
  function Finish(st: ReadState): Result<seq<(string, string)>, FastaError> {
    var seqs := Flushed(st);
    if |st.ids| != |seqs| then Failure(CountMismatch)
    else if st.ids == [] then Failure(NoSequences)
    else Success(DictOf(Zip(st.ids, seqs)))
  }

  /** `read_fasta` on the lines of a file. */
  function ParseFasta(lines: seq<string>): Result<seq<(string, string)>, FastaError> {
    match ReadLines(Start, lines)
    case Failure(e) => Failure(e)
    case Success(st) => Finish(st)
  }

  /** The reading loop at line `i`: that line, then the lines after it. */
  lemma ReadLinesAt(st: ReadState, lines: seq<string>, i: nat)
    requires i < |lines|
    ensures ReadLine(st, lines[i]).Failure? ==> ReadLines(st, lines[i..]) == Failure(ReadLine(st, lines[i]).error)
    ensures ReadLine(st, lines[i]).Success? ==> ReadLines(st, lines[i..]) == ReadLines(ReadLine(st, lines[i]).value, lines[i + 1..])
  {
    assert lines[i..][0] == lines[i] && lines[i..][1..] == lines[i + 1..];
  }

  /** `read_fasta`: the loop with its three running lists. */
  method ReadFasta(lines: seq<string>) returns (r: Result<seq<(string, string)>, FastaError>)
    ensures r == ParseFasta(lines)
  {
    var ids: seq<string> := [];
    var seqs: seq<string> := [];
    var current: seq<string> := [];
    for i := 0 to |lines|
      invariant ReadLines(ReadState(ids, seqs, current), lines[i..]) == ReadLines(Start, lines)
    {
      ghost var st := ReadState(ids, seqs, current);
      ReadLinesAt(st, lines, i);
      var line := Strip(lines[i]);
      if line == [] {
        continue;
      }
      if line[0] == '>' {
        ids := ids + [ReplaceAll(line[1..], " ", "_")];
        if current != [] {
          seqs := seqs + [Join(current, "")];
          current := [];
        }
      } else {
        if ids == [] {
          return Failure(SequenceBeforeId);
        }
        if !IsAlpha(ReplaceAll(line, "-", "z")) {
          return Failure(NonAlphabetic);
        }
        current := current + [line];
      }
    }
    if current != [] {
      seqs := seqs + [Join(current, "")];
    }
    if |ids| != |seqs| {
      return Failure(CountMismatch);
    }
    if ids == [] {
      return Failure(NoSequences);
    }
    r := Success(DictOf(Zip(ids, seqs)));
  }

  // ---------------------------------------------------------------- properties of reading

  /** A successful read maps at least one identifier, each to one sequence. */
  lemma ParseFastaSuccess(lines: seq<string>)
    requires ParseFasta(lines).Success?
    ensures |ParseFasta(lines).value| >= 1
    ensures DistinctKeys(ParseFasta(lines).value)
  {
    var st := ReadLines(Start, lines).value;
    var z := Zip(st.ids, Flushed(st));
    DictOfSpec(z);
    assert KeyIndex(DictOf(z), z[0].0) < |DictOf(z)|;
  }

  /** A sequence line before any header is rejected. */
  lemma SequenceFirstFails(first: string, rest: seq<string>)
    requires Strip(first) != [] && Strip(first)[0] != '>'
    ensures ParseFasta([first] + rest) == Failure(SequenceBeforeId)
  {
    assert ([first] + rest)[0] == first;
  }

  predicate Blank(line: string) {
    Strip(line) == []
  }

  /** Blank lines change nothing. */
  lemma {:induction false} BlankLinesSkipped(st: ReadState, lines: seq<string>)
    requires forall k :: 0 <= k < |lines| ==> Blank(lines[k])
    ensures ReadLines(st, lines) == Success(st)
    decreases |lines|
  {
    if lines != [] {
      BlankLinesSkipped(st, lines[1..]);
    }
  }

  /** A file of blank lines holds no sequences. */
  lemma BlankFileFails(lines: seq<string>)
    requires forall k :: 0 <= k < |lines| ==> Blank(lines[k])
    ensures ParseFasta(lines) == Failure(NoSequences)
  {
    BlankLinesSkipped(Start, lines);
  }

  /** The loop reads a concatenation of lines as the first part, then the second. */
  lemma {:induction false} ReadLinesAppend(st: ReadState, lines: seq<string>, more: seq<string>)
    ensures ReadLines(st, lines + more) ==
      match ReadLines(st, lines)
      case Failure(e) => Failure(e)
      case Success(mid) => ReadLines(mid, more)
    decreases |lines|
  {
    if lines != [] {
      assert (lines + more)[0] == lines[0] && (lines + more)[1..] == lines[1..] + more;
      match ReadLine(st, lines[0])
      case Failure(_) =>
      case Success(next) => ReadLinesAppend(next, lines[1..], more);
    } else {
      assert lines + more == more;
    }
  }

  /** Every sequence belongs to an identifier read before it: fewer finished sequences than
      identifiers, unless nothing has been read. */
  predicate Balanced(st: ReadState) {
    (st.ids == [] && st.seqs == [] && st.current == []) || |st.seqs| < |st.ids|
  }

  /** Reading one line keeps every sequence behind an identifier. */
  lemma ReadLineBalanced(st: ReadState, raw: string)
    requires Balanced(st)
    requires ReadLine(st, raw).Success?
    ensures Balanced(ReadLine(st, raw).value)
  {
  }

  lemma {:induction false} ReadLinesBalanced(st: ReadState, lines: seq<string>)
    requires Balanced(st)
    requires ReadLines(st, lines).Success?
    ensures Balanced(ReadLines(st, lines).value)
    decreases |lines|
  {
    if lines != [] {
      assert ReadLine(st, lines[0]).Success?;
      var next := ReadLine(st, lines[0]).value;
      assert ReadLines(st, lines) == ReadLines(next, lines[1..]);
      ReadLineBalanced(st, lines[0]);
      ReadLinesBalanced(next, lines[1..]);
    }
  }

  /** A header on the last line leaves an identifier without a sequence: the read fails. */
  lemma TrailingHeaderFails(lines: seq<string>, header: string)
    requires Strip(header) != [] && Strip(header)[0] == '>'
    ensures ParseFasta(lines + [header]).Failure?
  {
    ReadLinesAppend(Start, lines, [header]);
    if ReadLines(Start, lines).Success? {
      ReadLinesBalanced(Start, lines);
      var mid := ReadLines(Start, lines).value;
      assert [header][1..] == [];
      var last := ReadLine(mid, header).value;
      assert |last.seqs| < |last.ids| && last.current == [];
    }
  }

  // ---------------------------------------------------------------- writing, then reading

  /** A name that survives a header line unchanged: no whitespace at all. */
  predicate NameOk(name: string) {
    forall i :: 0 <= i < |name| ==> !IsSpace(name[i])
  }

  /** A sequence the reader accepts as it is: non-empty, letters and gaps only. */
  predicate SequenceOk(sequence: string) {
    |sequence| > 0 && forall i :: 0 <= i < |sequence| ==> IsAsciiLetter(sequence[i]) || sequence[i] == '-'
  }

  /** The lines of `FastaText`: a header and a sequence line per pair. */
  function FastaLines(names: seq<string>, seqs: seq<string>): seq<string>
    decreases |names|
  {
    if names == [] || seqs == [] then []
    else [">" + names[0], seqs[0]] + FastaLines(names[1..], seqs[1..])
  }

  lemma {:induction false} FastaTextLines(names: seq<string>, seqs: seq<string>)
    requires forall k :: 0 <= k < |names| ==> NameOk(names[k])
    requires forall k :: 0 <= k < |seqs| ==> SequenceOk(seqs[k])
    ensures FileLines(FastaText(names, seqs)) == FastaLines(names, seqs)
    decreases |names|
  {
    if names != [] && seqs != [] {
      var h, s := ">" + names[0], seqs[0];
      NoBreaks(names[0], s);
      var rest := FastaText(names[1..], seqs[1..]);
      assert EntryText(names[0], s) + rest == h + "\n" + (s + "\n" + rest);
      TwoLines(h, s, rest);
      FastaTextLines(names[1..], seqs[1..]);
    }
  }

  /** Neither a written header line nor a written sequence line holds a line break. */
  lemma NoBreaks(name: string, s: string)
    requires NameOk(name) && SequenceOk(s)
    ensures forall j :: 0 <= j < |">" + name| ==> (">" + name)[j] !in FileBreaks
    ensures forall j :: 0 <= j < |s| ==> s[j] !in FileBreaks
  {
  }

  /** Two lines without breaks, each ended by a newline, split off the front of a text. */
  lemma TwoLines(h: string, s: string, rest: string)
    requires forall j :: 0 <= j < |h| ==> h[j] !in FileBreaks
    requires forall j :: 0 <= j < |s| ==> s[j] !in FileBreaks
    ensures FileLines(h + "\n" + (s + "\n" + rest)) == [h, s] + FileLines(rest)
  {
    var tail := s + "\n" + rest;
    LinesByCons(h, tail, FileBreaks);
    LinesByCons(s, rest, FileBreaks);
    var lines := LinesBy(rest, FileBreaks);
    assert [h] + ([s] + lines) == [h, s] + lines;
  }

  /** A written header line survives stripping. */
  lemma HeaderStrip(name: string)
    requires NameOk(name)
    ensures Strip(">" + name) == ">" + name
  {
    StripNoSurrounding(">" + name);
  }

  /** The identifier read from a written header line is its name. */
  lemma HeaderId(name: string)
    requires NameOk(name)
    ensures ReplaceAll((">" + name)[1..], " ", "_") == name
  {
    assert (">" + name)[1..] == name;
    assert forall i :: 0 <= i < |name| ==> name[i] != ' ';
    ReplaceAbsent(name, ' ', '_');
  }

  /** A written sequence line survives stripping and is not a header. */
  lemma SequenceStrip(sequence: string)
    requires SequenceOk(sequence)
    ensures Strip(sequence) == sequence
  {
    var first, last := sequence[0], sequence[|sequence| - 1];
    assert IsAsciiLetter(first) || first == '-';
    assert IsAsciiLetter(last) || last == '-';
    assert !IsSpace(first) && !IsSpace(last);
    StripNoSurrounding(sequence);
  }

  /** A written sequence line passes the alphabet check. */
  lemma SequenceAlpha(sequence: string)
    requires SequenceOk(sequence)
    ensures IsAlpha(ReplaceAll(sequence, "-", "z"))
  {
    var t := ReplaceAll(sequence, "-", "z");
    ReplaceCharLength(sequence, '-', 'z');
    ReplaceCharRemoves(sequence, '-', 'z');
    ReplaceCharFrom(sequence, '-', 'z');
    forall i | 0 <= i < |t| ensures IsAsciiLetter(t[i]) {
      var c := t[i];
      assert c in t;
      if c != 'z' {
        assert c in sequence && c != '-';
        var j :| 0 <= j < |sequence| && sequence[j] == c;
      }
    }
  }

  /** The reader takes a written header line as a new identifier, the written name. */
  lemma ReadHeaderLine(st: ReadState, name: string)
    requires NameOk(name)
    ensures ReadLine(st, ">" + name) == Success(ReadState(st.ids + [name], Flushed(st), []))
  {
    HeaderStrip(name);
    HeaderId(name);
  }

  /** After a header, the reader takes a written sequence line as one more piece of the sequence. */
  lemma ReadSequenceLine(st: ReadState, sequence: string)
    requires SequenceOk(sequence) && st.ids != []
    ensures ReadLine(st, sequence) == Success(st.(current := st.current + [sequence]))
  {
    SequenceStrip(sequence);
    SequenceAlpha(sequence);
  }

  /** A line read, then the rest. */
  lemma ReadFirstLine(st: ReadState, a: string, rest: seq<string>, mid: ReadState)
    requires ReadLine(st, a) == Success(mid)
    ensures ReadLines(st, [a] + rest) == ReadLines(mid, rest)
  {
    var lines := [a] + rest;
    assert lines[0] == a && lines[1..] == rest;
  }

  /** The loop after a first line that reads. */
  lemma ReadFirst(st: ReadState, lines: seq<string>, next: ReadState)
    requires lines != [] && ReadLine(st, lines[0]) == Success(next)
    ensures ReadLines(st, lines) == ReadLines(next, lines[1..])
  {
  }

  /** Two lines that read, then the rest. */
  lemma ReadTwo(st: ReadState, a: string, b: string, rest: seq<string>, mid: ReadState, next: ReadState)
    requires ReadLine(st, a) == Success(mid) && ReadLine(mid, b) == Success(next)
    ensures ReadLines(st, [a, b] + rest) == ReadLines(next, rest)
  {
    var lines := [a, b] + rest;
    assert lines[0] == a;
    ReadFirst(st, lines, mid);
    var after := lines[1..];
    assert after[0] == b && after[1..] == rest;
    ReadFirst(mid, after, next);
  }

  /** The two lines of one written entry: the name becomes an identifier and the sequence its
      first piece. */
  lemma ReadEntryLines(st: ReadState, name: string, sequence: string, rest: seq<string>)
    requires NameOk(name) && SequenceOk(sequence)
    ensures ReadLines(st, [">" + name, sequence] + rest)
         == ReadLines(ReadState(st.ids + [name], Flushed(st), [sequence]), rest)
  {
    var mid := ReadState(st.ids + [name], Flushed(st), []);
    ReadHeaderLine(st, name);
    var next := ReadState(st.ids + [name], Flushed(st), [sequence]);
    ReadSequenceLine(mid, sequence);
    assert mid.current + [sequence] == [sequence];
    assert mid.(current := mid.current + [sequence]) == next;
    ReadTwo(st, ">" + name, sequence, rest, mid, next);
  }

  /** The state after the first entry, advanced by the remaining entries, is the state the whole
      list of entries leads to. */
  lemma EntriesShift(st: ReadState, names: seq<string>, seqs: seq<string>)
    requires |names| == |seqs| >= 2
    ensures var st1 := ReadState(st.ids + [names[0]], Flushed(st), [seqs[0]]);
      ReadState(st1.ids + names[1..], Flushed(st1) + seqs[1..][..|seqs| - 2], [seqs[1..][|seqs| - 2]])
      == ReadState(st.ids + names, Flushed(st) + seqs[..|seqs| - 1], [seqs[|seqs| - 1]])
  {
    var st1 := ReadState(st.ids + [names[0]], Flushed(st), [seqs[0]]);
    assert Join([seqs[0]], "") == seqs[0];
    assert Flushed(st1) == Flushed(st) + [seqs[0]];
    assert st1.ids + names[1..] == st.ids + names by {
      assert [names[0]] + names[1..] == names;
    }
    assert [seqs[0]] + seqs[1..][..|seqs| - 2] == seqs[..|seqs| - 1];
    assert Flushed(st) + [seqs[0]] + seqs[1..][..|seqs| - 2] == Flushed(st) + ([seqs[0]] + seqs[1..][..|seqs| - 2]);
  }

  /** The lines of a single written entry. */
  lemma ReadOneEntry(st: ReadState, name: string, sequence: string)
    requires NameOk(name) && SequenceOk(sequence)
    ensures ReadLines(st, FastaLines([name], [sequence]))
         == Success(ReadState(st.ids + [name], Flushed(st), [sequence]))
  {
    assert FastaLines([name], [sequence]) == [">" + name, sequence] + [];
    ReadEntryLines(st, name, sequence, []);
  }

  lemma SingleEntry(st: ReadState, names: seq<string>, seqs: seq<string>)
    requires |names| == |seqs| == 1
    ensures FastaLines(names, seqs) == FastaLines([names[0]], [seqs[0]])
    ensures ReadState(st.ids + [names[0]], Flushed(st), [seqs[0]])
         == ReadState(st.ids + names, Flushed(st) + seqs[..|seqs| - 1], [seqs[|seqs| - 1]])
  {
    assert names == [names[0]] && seqs == [seqs[0]];
    assert Flushed(st) + seqs[..0] == Flushed(st);
  }

  /** Reading the lines of written entries adds their names and, one line behind, their sequences. */
  lemma {:induction false} ReadEntries(st: ReadState, names: seq<string>, seqs: seq<string>)
    requires |names| == |seqs| >= 1
    requires forall k :: 0 <= k < |names| ==> NameOk(names[k])
    requires forall k :: 0 <= k < |seqs| ==> SequenceOk(seqs[k])
    ensures ReadLines(st, FastaLines(names, seqs))
         == Success(ReadState(st.ids + names, Flushed(st) + seqs[..|seqs| - 1], [seqs[|seqs| - 1]]))
    decreases |names|
  {
    if |names| == 1 {
      ReadOneEntry(st, names[0], seqs[0]);
      SingleEntry(st, names, seqs);
    } else {
      var st1 := ReadState(st.ids + [names[0]], Flushed(st), [seqs[0]]);
      ReadEntries(st1, names[1..], seqs[1..]);
      ReadEntriesCons(st, names, seqs, st1);
    }
  }

  /** One more entry in front of entries whose lines read as stated. */
  lemma ReadEntriesCons(st: ReadState, names: seq<string>, seqs: seq<string>, st1: ReadState)
    requires |names| == |seqs| >= 2 && NameOk(names[0]) && SequenceOk(seqs[0])
    requires st1 == ReadState(st.ids + [names[0]], Flushed(st), [seqs[0]])
    requires ReadLines(st1, FastaLines(names[1..], seqs[1..]))
          == Success(ReadState(st1.ids + names[1..], Flushed(st1) + seqs[1..][..|seqs| - 2], [seqs[1..][|seqs| - 2]]))
    ensures ReadLines(st, FastaLines(names, seqs))
         == Success(ReadState(st.ids + names, Flushed(st) + seqs[..|seqs| - 1], [seqs[|seqs| - 1]]))
  {
    var rest := FastaLines(names[1..], seqs[1..]);
    assert FastaLines(names, seqs) == [">" + names[0], seqs[0]] + rest;
    ReadEntryLines(st, names[0], seqs[0], rest);
    EntriesShift(st, names, seqs);
  }

  /** The state after the last written entry finishes with the pairs. */
  lemma FinishEntries(names: seq<string>, seqs: seq<string>)
    requires |names| == |seqs| >= 1
    requires forall i, j :: 0 <= i < j < |names| ==> names[i] != names[j]
    ensures Finish(ReadState(names, seqs[..|seqs| - 1], [seqs[|seqs| - 1]])) == Success(Zip(names, seqs))
  {
    var st := ReadState(names, seqs[..|seqs| - 1], [seqs[|seqs| - 1]]);
    assert Join([seqs[|seqs| - 1]], "") == seqs[|seqs| - 1];
    assert Flushed(st) == seqs;
    DictOfDistinct(Zip(names, seqs));
  }

  /** The lines of written entries parse back to the pairs. */
  lemma ParseEntries(names: seq<string>, seqs: seq<string>)
    requires |names| == |seqs| >= 1
    requires forall k :: 0 <= k < |names| ==> NameOk(names[k])
    requires forall i, j :: 0 <= i < j < |names| ==> names[i] != names[j]
    requires forall k :: 0 <= k < |seqs| ==> SequenceOk(seqs[k])
    ensures ParseFasta(FastaLines(names, seqs)) == Success(Zip(names, seqs))
  {
    var lines := FastaLines(names, seqs);
    var last := ReadState(names, seqs[..|seqs| - 1], [seqs[|seqs| - 1]]);
    ReadEntries(Start, names, seqs);
    assert ReadLines(Start, lines) == Success(last) by {
      assert Start.ids + names == names;
      assert Flushed(Start) + seqs[..|seqs| - 1] == seqs[..|seqs| - 1];
    }
    FinishEntries(names, seqs);
    assert ParseFasta(lines) == Finish(last);
  }

  /** Reading what `write_fasta` wrote gives back the pairs, in order, when the names are distinct
      whitespace-free strings and the sequences non-empty strings of letters and gaps. */
  lemma FastaRoundTrip(names: seq<string>, seqs: seq<string>)
    requires |names| == |seqs| >= 1
    requires forall k :: 0 <= k < |names| ==> NameOk(names[k])
    requires forall i, j :: 0 <= i < j < |names| ==> names[i] != names[j]
    requires forall k :: 0 <= k < |seqs| ==> SequenceOk(seqs[k])
    ensures ParseFasta(FileLines(FastaText(names, seqs))) == Success(Zip(names, seqs))
  {
    FastaTextLines(names, seqs);
    ParseEntries(names, seqs);
  }
}
