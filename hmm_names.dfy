/** Naming shared by the profile builder and the profile checker: profile names derived from
    accession-list file names, and accessions with their "C-"/"N-" domain marks removed. */
module HmmNames {
  import opened Text
  import opened Paths

  /** A domain mark "C-" or "N-" starts at position `i`. */
  predicate MarkAt(s: string, i: int) {
    0 <= i && i + 1 < |s| && (s[i] == 'C' || s[i] == 'N') && s[i + 1] == '-'
  }

  /** `re.sub("C-|N-", "", s)`: scanning left to right, each mark met is removed and scanning
      resumes after it; characters of a removed mark are not looked at again. */
  function RemoveMarks(s: string): (r: string)
    ensures |r| <= |s|
    decreases |s|
  {
    if s == [] then []
    else if MarkAt(s, 0) then RemoveMarks(s[2..])
    else [s[0]] + RemoveMarks(s[1..])
  }

  /** An accession without marks is left as it is. */
  lemma {:induction false} RemoveMarksUnmarked(s: string)
    requires forall i :: !MarkAt(s, i)
    ensures RemoveMarks(s) == s
    decreases |s|
  {
    if s != [] {
      assert forall i :: MarkAt(s[1..], i) ==> MarkAt(s, i + 1);
      RemoveMarksUnmarked(s[1..]);
    }
  }

  /** The marked forms of an unmarked accession all reduce to it. */
  lemma MarkedForms(s: string)
    requires forall i :: !MarkAt(s, i)
    ensures RemoveMarks("C-" + s) == s && RemoveMarks("N-" + s) == s
  {
    RemoveMarksUnmarked(s);
    assert ("C-" + s)[2..] == s && ("N-" + s)[2..] == s;
  }

  /** The name of the profile built from an accession list: its file name without the extension,
      as the checker derives it with `os.path.splitext`. */
  function HmmName(file: string): (r: string)
    ensures StartsWith(Basename(file), r)
  {
    SplitExtRoot(Basename(file))
  }

  /** A list stored as "<stem>.txt" names the profile "<stem>". */
  lemma HmmNameTxt(dir: string, stem: string)
    requires '/' !in stem && exists k :: 0 <= k < |stem| && stem[k] != '.'
    ensures HmmName(PathJoin(dir, stem + ".txt")) == stem
  {
    BasenameOfJoin(dir, stem + ".txt");
    TxtRoot(stem);
  }

  /** A bare file name "<stem>.txt" names the profile "<stem>". */
  lemma HmmNameOfFile(stem: string)
    requires '/' !in stem && exists k :: 0 <= k < |stem| && stem[k] != '.'
    ensures HmmName(stem + ".txt") == stem
  {
    assert '/' !in stem + ".txt";
    BasenameNoSeparator(stem + ".txt");
    TxtRoot(stem);
  }

  /** The profile built without one accession. */
  function LooName(hmm: string, accession: string): (r: string)
    ensures |r| == |hmm| + 1 + |accession|
    ensures StartsWith(r, hmm) && r[|hmm|] == '_' && EndsWith(r, accession)
  {
    hmm + "_" + accession
  }
}
