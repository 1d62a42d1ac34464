/** Profile building (`build_hmms.py`): for every accession list, the FASTA entries of the listed
    accessions are aligned with `muscle` and turned into a profile HMM with `hmmbuild`, and, when
    asked, one more profile per listed accession with that accession's entries left out. A profile
    whose file is already present is not built again. */
module BuildHmms {
  import opened Wrappers
  import opened Text
  import opened Collections
  import opened FastaParsing
  import opened FastaSelection
  import opened Paths
  import opened HmmNames

  // ---------------------------------------------------------------- the profile name

  /** The characters `.strip(".txt")` removes: a set of characters, not a suffix. */
  const TxtChars: set<char> := {'.', 't', 'x'}

  /** The profile name the script derives from an accession-list path: the base name with every
      '.', 't' and 'x' stripped from both ends. */
  function StrippedName(file: string): (r: string)
    ensures r == [] || (r[0] !in TxtChars && r[|r| - 1] !in TxtChars)
  {
    StripChars(Basename(file), TxtChars)
  }

  /** A list "<stem>.txt" whose stem begins or ends with '.', 't' or 'x' gets a profile name
      other than its stem, which is the name the checker derives with `os.path.splitext`. */
  lemma StrippedNameDiffers(stem: string)
    requires '/' !in stem && exists k :: 0 <= k < |stem| && stem[k] != '.'
    requires stem[0] in TxtChars || stem[|stem| - 1] in TxtChars
    ensures HmmName(stem + ".txt") == stem
    ensures StrippedName(stem + ".txt") != stem
  {
    HmmNameOfFile(stem);
    TxtFileNoSeparator(stem);
    StrippedNameOfBareFile(stem + ".txt");
    StripCharsNotTo(stem + ".txt", stem, TxtChars);
  }

  lemma TxtFileNoSeparator(stem: string)
    requires '/' !in stem
    ensures '/' !in stem + ".txt"
  {
    var file := stem + ".txt";
    forall i | 0 <= i < |file| ensures file[i] != '/' {
      if i < |stem| { assert file[i] == stem[i]; }
    }
  }

  /** A bare file name is its own base name. */
  lemma StrippedNameOfBareFile(file: string)
    requires '/' !in file
    ensures StrippedName(file) == StripChars(file, TxtChars)
  {
    BasenameNoSeparator(file);
  }

  // ---------------------------------------------------------------- the main profile's sequences

  /** The main profile's sequences: for each listed accession in turn, its FASTA entry, if there is
      one, is assigned into an insertion-ordered dictionary. */
  function Selected(accessions: seq<string>, fasta: seq<(string, string)>): seq<(string, string)>
    decreases |accessions|
  {
    if accessions == [] then []
    else
      var d := Selected(accessions[..|accessions| - 1], fasta);
      var k := KeyIndex(fasta, accessions[|accessions| - 1]);
      if k < |fasta| then Assigned(d, fasta[k]) else d
  }

  /** Entries ordered by where their accession is first listed. */
  predicate ListedInOrder(d: seq<(string, string)>, accessions: seq<string>) {
    forall p, q | 0 <= p < q < |d| :: FirstIndex(accessions, d[p].0) < FirstIndex(accessions, d[q].0)
  }

  /** The position of an element in a list one longer. */
  lemma FirstIndexSnoc(xs: seq<string>, x: string, y: string)
    ensures y in xs ==> FirstIndex(xs + [x], y) == FirstIndex(xs, y) < |xs|
    ensures y !in xs && y == x ==> FirstIndex(xs + [x], y) == |xs|
  {
    var i, j := FirstIndex(xs + [x], y), FirstIndex(xs, y);
    if y in xs {
      assert j < |xs|;
      assert (xs + [x])[j] == y;
    } else if y == x {
      assert (xs + [x])[|xs|] == y;
    }
  }

  /** One more listed accession adds its FASTA entry, unless it has none or was listed before. */
  lemma SelectedSnoc(init: seq<string>, a: string, fasta: seq<(string, string)>)
    requires DistinctKeys(fasta)
    requires forall e :: e in Selected(init, fasta) <==> e in fasta && e.0 in init
    ensures var k := KeyIndex(fasta, a);
      Selected(init + [a], fasta) == if k < |fasta| && a !in init then Selected(init, fasta) + [fasta[k]] else Selected(init, fasta)
  {
    var d, k := Selected(init, fasta), KeyIndex(fasta, a);
    assert (init + [a])[..|init|] == init;
    if k < |fasta| {
      var i := KeyIndex(d, a);
      if a in init {
        assert fasta[k] in d;
        assert i < |d|;
        var m :| 0 <= m < |fasta| && fasta[m] == d[i];
        assert Assigned(d, fasta[k]) == d;
      }
    }
  }

  /** The main profile holds exactly the FASTA entries of listed accessions, once each. */
  lemma {:induction false} SelectedMembers(accessions: seq<string>, fasta: seq<(string, string)>)
    requires DistinctKeys(fasta)
    ensures DistinctKeys(Selected(accessions, fasta))
    ensures forall e :: e in Selected(accessions, fasta) <==> e in fasta && e.0 in accessions
    decreases |accessions|
  {
    if accessions != [] {
      var init, a := accessions[..|accessions| - 1], accessions[|accessions| - 1];
      assert accessions == init + [a];
      SelectedMembers(init, fasta);
      SelectedSnoc(init, a, fasta);
      var k := KeyIndex(fasta, a);
      forall e | e in fasta && e.0 == a ensures k < |fasta| && e == fasta[k] {
        var m :| 0 <= m < |fasta| && fasta[m] == e;
      }
    }
  }

  /** Order by first listing survives listing more accessions. */
  lemma ListedInOrderLonger(d: seq<(string, string)>, init: seq<string>, accessions: seq<string>)
    requires ListedInOrder(d, init)
    requires forall p | 0 <= p < |d| :: FirstIndex(accessions, d[p].0) == FirstIndex(init, d[p].0)
    ensures ListedInOrder(d, accessions)
  {
  }

  /** An entry whose accession is listed after those of all others goes last. */
  lemma ListedInOrderSnoc(d: seq<(string, string)>, accessions: seq<string>, e: (string, string))
    requires ListedInOrder(d, accessions)
    requires forall p | 0 <= p < |d| :: FirstIndex(accessions, d[p].0) < FirstIndex(accessions, e.0)
    ensures ListedInOrder(d + [e], accessions)
  {
  }

  /** The main profile's entries are ordered by where their accession is first listed. */
  lemma {:induction false} SelectedOrder(accessions: seq<string>, fasta: seq<(string, string)>)
    requires DistinctKeys(fasta)
    ensures ListedInOrder(Selected(accessions, fasta), accessions)
    decreases |accessions|
  {
    if accessions != [] {
      var init, a := accessions[..|accessions| - 1], accessions[|accessions| - 1];
      assert accessions == init + [a];
      SelectedOrder(init, fasta);
      SelectedMembers(init, fasta);
      SelectedSnoc(init, a, fasta);
      var d, k := Selected(init, fasta), KeyIndex(fasta, a);
      if k < |fasta| && a !in init {
        FirstIndexSnoc(init, a, a);
      }
      forall p | 0 <= p < |d|
        ensures FirstIndex(accessions, d[p].0) == FirstIndex(init, d[p].0) < |init|
      {
        assert d[p] in d;
        FirstIndexSnoc(init, a, d[p].0);
      }
      ListedInOrderLonger(d, init, accessions);
      if k < |fasta| && a !in init {
        ListedInOrderSnoc(d, accessions, fasta[k]);
      }
    }
  }

  /** The main profile holds exactly the FASTA entries of listed accessions, once each, ordered by
      first listing. */
  lemma SelectedSpec(accessions: seq<string>, fasta: seq<(string, string)>)
    requires DistinctKeys(fasta)
    ensures DistinctKeys(Selected(accessions, fasta))
    ensures forall e :: e in Selected(accessions, fasta) <==> e in fasta && e.0 in accessions
    ensures ListedInOrder(Selected(accessions, fasta), accessions)
  {
    SelectedMembers(accessions, fasta);
    SelectedOrder(accessions, fasta);
  }

  /** `sequences[header] = seq` for every FASTA entry whose header equals a listed accession, the
      accessions in list order and the FASTA dictionary scanned for each. */
  method ProfileSequences(accessions: seq<string>, fasta: seq<(string, string)>) returns (sequences: seq<(string, string)>)
    requires DistinctKeys(fasta)
    ensures sequences == Selected(accessions, fasta)
    ensures DistinctKeys(sequences)
  {
    sequences := [];
    for i := 0 to |accessions|
      invariant sequences == Selected(accessions[..i], fasta)
    {
      var accession := accessions[i];
      ghost var d := sequences;
      ghost var k := KeyIndex(fasta, accession);
      for j := 0 to |fasta|
        invariant sequences == if k < j then Assigned(d, fasta[k]) else d
      {
        var (header, sequence) := fasta[j];
        if header == accession {
          assert k == j;
          sequences := Assigned(sequences, (header, sequence));
        }
      }
      assert accessions[..i + 1][..i] == accessions[..i];
    }
    assert accessions[..|accessions|] == accessions;
    SelectedMembers(accessions, fasta);
  }

  // ---------------------------------------------------------------- leave-one-out

  /** Whether an entry survives leaving out `base`: its accession does not end with it. */
  function KeepsBase(base: string): ((string, string)) -> bool {
    (e: (string, string)) => !EndsWith(e.0, base)
  }

  /** The copy after `j` entries have been looked at: the kept ones, then the rest. */
  predicate LooAfter(sequences: seq<(string, string)>, base: string, j: nat, loo: seq<(string, string)>)
    requires j <= |sequences|
  {
    loo == Filter(sequences[..j], KeepsBase(base)) + sequences[j..]
  }

  /** Deleting the next entry to leave out: it sits right after the entries kept so far, since no
      kept entry has its accession. */
  lemma LeaveOneOutDelete(sequences: seq<(string, string)>, base: string, j: nat, loo: seq<(string, string)>)
    requires DistinctKeys(sequences) && j < |sequences| && EndsWith(sequences[j].0, base)
    requires LooAfter(sequences, base, j, loo)
    ensures KeyIndex(loo, sequences[j].0) < |loo|
    ensures LooAfter(sequences, base, j + 1, loo[..KeyIndex(loo, sequences[j].0)] + loo[KeyIndex(loo, sequences[j].0) + 1..])
  {
    var kept := Filter(sequences[..j], KeepsBase(base));
    assert KeyIndex(loo, sequences[j].0) == |kept| by {
      FilterSpec(sequences[..j], KeepsBase(base));
      forall m | 0 <= m < |kept| ensures loo[m].0 != sequences[j].0 {
        assert loo[m] == kept[m] && kept[m] in sequences[..j];
      }
      assert loo[|kept|] == sequences[j];
    }
    assert Filter(sequences[..j + 1], KeepsBase(base)) == kept by {
      FilterStep(sequences, KeepsBase(base), j);
    }
    assert loo[..|kept|] == kept;
    assert loo[|kept| + 1..] == sequences[j + 1..];
  }

  /** Keeping the next entry. */
  lemma LeaveOneOutKeep(sequences: seq<(string, string)>, base: string, j: nat, loo: seq<(string, string)>)
    requires j < |sequences| && !EndsWith(sequences[j].0, base)
    requires LooAfter(sequences, base, j, loo)
    ensures LooAfter(sequences, base, j + 1, loo)
  {
    FilterStep(sequences, KeepsBase(base), j);
    assert sequences[j..] == [sequences[j]] + sequences[j + 1..];
  }

  /** `del sequences_loo[accession]` for every accession ending with `base`, on a copy. */
  method LeaveOneOut(sequences: seq<(string, string)>, base: string) returns (loo: seq<(string, string)>)
    requires DistinctKeys(sequences)
    ensures loo == Filter(sequences, KeepsBase(base))
  {
    loo := sequences;
    assert sequences[..0] == [] && sequences[0..] == sequences;
    for j := 0 to |sequences|
      invariant LooAfter(sequences, base, j, loo)
    {
      var accession := sequences[j].0;
      if EndsWith(accession, base) {
        LeaveOneOutDelete(sequences, base, j, loo);
        var k := KeyIndex(loo, accession);
        loo := loo[..k] + loo[k + 1..];
      } else {
        LeaveOneOutKeep(sequences, base, j, loo);
      }
    }
    assert sequences[..|sequences|] == sequences;
  }

  /** A leave-one-out profile keeps, in order, exactly the main profile's entries whose accession
      does not end with the left-out accession. */
  lemma LeaveOneOutSpec(sequences: seq<(string, string)>, base: string)
    ensures IsSubseq(Filter(sequences, KeepsBase(base)), sequences)
    ensures forall e :: e in Filter(sequences, KeepsBase(base)) <==> e in sequences && !EndsWith(e.0, base)
  {
    FilterSpec(sequences, KeepsBase(base));
  }

  /** Leaving out an unmarked accession drops its "C-" and "N-" domain forms too. */
  lemma LeaveOneOutDropsMarkedForms(sequences: seq<(string, string)>, base: string, s: string)
    requires forall i :: !MarkAt(base, i)
    requires s == base || s == "C-" + base || s == "N-" + base
    ensures RemoveMarks(s) == base
    ensures forall e | e in Filter(sequences, KeepsBase(RemoveMarks(s))) :: e.0 != base && e.0 != "C-" + base && e.0 != "N-" + base
  {
    RemoveMarksUnmarked(base);
    MarkedForms(base);
    FilterSpec(sequences, KeepsBase(base));
    assert ("C-" + base)[2..] == base && ("N-" + base)[2..] == base;
  }

  // ---------------------------------------------------------------- building

  /** A profile the script asks for: its name and the entries it is built from. */
  datatype Request = Request(name: string, sequences: seq<(string, string)>)

  /** A profile built: the name given to `hmmbuild -n`, its file, and the FASTA text given to
      `muscle` on standard input. */
  datatype Build = Build(name: string, file: string, input: string)

  /** `os.path.join(hmm_dir, hmm_name + ".hmm")` */
  function ProfilePath(hmmDir: string, name: string): string {
    PathJoin(hmmDir, name + ".hmm")
  }

  function Names(d: seq<(string, string)>): seq<string> {
    seq(|d|, k requires 0 <= k < |d| => d[k].0)
  }

  function Seqs(d: seq<(string, string)>): seq<string> {
    seq(|d|, k requires 0 <= k < |d| => d[k].1)
  }

  /** What building a requested profile amounts to. */
  function BuildOf(hmmDir: string, r: Request): Build {
    Build(r.name, ProfilePath(hmmDir, r.name), FastaText(Names(r.sequences), Seqs(r.sequences)))
  }

  /** `build_hmm`: nothing when the profile file is present, otherwise the alignment input
      written entry by entry. */
  method BuildHmm(sequences: seq<(string, string)>, hmmDir: string, name: string, present: set<string>)
    returns (build: Option<Build>)
    ensures build == if ProfilePath(hmmDir, name) in present then None else Some(BuildOf(hmmDir, Request(name, sequences)))
  {
    var hmmFile := ProfilePath(hmmDir, name);
    if hmmFile in present {
      return None;
    }
    var input := WriteFasta(Names(sequences), Seqs(sequences));
    build := Some(Build(name, hmmFile, input));
  }

  /** The alignment input reads back as the profile's entries, in order, when the accessions are
      distinct whitespace-free names and the sequences letters and gaps. */
  lemma BuildInputParses(hmmDir: string, r: Request)
    requires |r.sequences| >= 1 && DistinctKeys(r.sequences)
    requires forall k | 0 <= k < |r.sequences| :: NameOk(r.sequences[k].0) && SequenceOk(r.sequences[k].1)
    ensures ParseFasta(FileLines(BuildOf(hmmDir, r).input)) == Success(r.sequences)
  {
    var names, seqs := Names(r.sequences), Seqs(r.sequences);
    assert forall k | 0 <= k < |names| :: names[k] == r.sequences[k].0 && seqs[k] == r.sequences[k].1;
    FastaRoundTrip(names, seqs);
    ZipNamesSeqs(r.sequences);
    assert BuildOf(hmmDir, r).input == FastaText(names, seqs);
  }

  /** Pairing the names with the sequences gives back the entries. */
  lemma ZipNamesSeqs(d: seq<(string, string)>)
    ensures Zip(Names(d), Seqs(d)) == d
  {
    var z := Zip(Names(d), Seqs(d));
    assert |z| == |d|;
    forall k | 0 <= k < |d| ensures z[k] == d[k] {
      assert z[k] == (Names(d)[k], Seqs(d)[k]);
    }
  }

  /** The files of builds. */
  function FilesOf(builds: seq<Build>): set<string>
    decreases |builds|
  {
    if builds == [] then {} else FilesOf(builds[..|builds| - 1]) + {builds[|builds| - 1].file}
  }

  /** Every build's file is among the files of the builds. */
  lemma {:induction false} FilesOfHas(builds: seq<Build>)
    ensures forall i | 0 <= i < |builds| :: builds[i].file in FilesOf(builds)
    decreases |builds|
  {
    if builds != [] {
      var init := builds[..|builds| - 1];
      FilesOfHas(init);
      assert forall i | 0 <= i < |init| :: builds[i] == init[i];
    }
  }

  lemma FilesOfSnoc(builds: seq<Build>, b: Build)
    ensures FilesOf(builds + [b]) == FilesOf(builds) + {b.file}
  {
    assert (builds + [b])[..|builds|] == builds;
  }

  /** The builds done for requests made in order, given the profile files present at the start:
      a request whose file is present — from the start or built by an earlier request — is skipped. */
  function Performed(requests: seq<Request>, hmmDir: string, existing: set<string>): seq<Build>
    decreases |requests|
  {
    if requests == [] then []
    else
      var done := Performed(requests[..|requests| - 1], hmmDir, existing);
      var r := requests[|requests| - 1];
      if ProfilePath(hmmDir, r.name) in existing + FilesOf(done) then done else done + [BuildOf(hmmDir, r)]
  }

  /** The profile files of requests. */
  function RequestedFiles(requests: seq<Request>, hmmDir: string): set<string>
    decreases |requests|
  {
    if requests == [] then {}
    else RequestedFiles(requests[..|requests| - 1], hmmDir) + {ProfilePath(hmmDir, requests[|requests| - 1].name)}
  }

  /** The builds of requests, unskipped. */
  function BuildsOf(requests: seq<Request>, hmmDir: string): seq<Build> {
    seq(|requests|, k requires 0 <= k < |requests| => BuildOf(hmmDir, requests[k]))
  }

  /** No profile file is written twice nor overwritten. */
  lemma {:induction false} PerformedFresh(requests: seq<Request>, hmmDir: string, existing: set<string>)
    ensures forall i, j | 0 <= i < j < |Performed(requests, hmmDir, existing)| ::
      Performed(requests, hmmDir, existing)[i].file != Performed(requests, hmmDir, existing)[j].file
    ensures forall i | 0 <= i < |Performed(requests, hmmDir, existing)| :: Performed(requests, hmmDir, existing)[i].file !in existing
    decreases |requests|
  {
    if requests != [] {
      var init, r := requests[..|requests| - 1], requests[|requests| - 1];
      PerformedFresh(init, hmmDir, existing);
      var before := Performed(init, hmmDir, existing);
      if Performed(requests, hmmDir, existing) != before {
        FilesOfHas(before);
      }
    }
  }

  /** Afterwards every requested profile file is present, and no other file has been added. */
  lemma {:induction false} PerformedCovers(requests: seq<Request>, hmmDir: string, existing: set<string>)
    ensures existing + FilesOf(Performed(requests, hmmDir, existing)) == existing + RequestedFiles(requests, hmmDir)
    decreases |requests|
  {
    if requests != [] {
      var init, r := requests[..|requests| - 1], requests[|requests| - 1];
      PerformedCovers(init, hmmDir, existing);
      var before := Performed(init, hmmDir, existing);
      if Performed(requests, hmmDir, existing) != before {
        FilesOfSnoc(before, BuildOf(hmmDir, r));
      }
    }
  }

  /** The builds are the requests' builds, in request order, some skipped. */
  lemma {:induction false} PerformedInOrder(requests: seq<Request>, hmmDir: string, existing: set<string>)
    ensures IsSubseq(Performed(requests, hmmDir, existing), BuildsOf(requests, hmmDir))
    decreases |requests|
  {
    if requests == [] {
      SubseqRefl(Performed(requests, hmmDir, existing));
    } else {
      var init, r := requests[..|requests| - 1], requests[|requests| - 1];
      PerformedInOrder(init, hmmDir, existing);
      assert BuildsOf(requests, hmmDir) == BuildsOf(init, hmmDir) + [BuildOf(hmmDir, r)];
      SubseqExtend(Performed(init, hmmDir, existing), BuildsOf(init, hmmDir), BuildOf(hmmDir, r));
    }
  }

  /** One more request: it is built unless its file is present. */
  lemma PerformedStep(requests: seq<Request>, r: Request, hmmDir: string, existing: set<string>)
    ensures Performed(requests + [r], hmmDir, existing)
         == var done := Performed(requests, hmmDir, existing);
            if ProfilePath(hmmDir, r.name) in existing + FilesOf(done) then done else done + [BuildOf(hmmDir, r)]
  {
    assert (requests + [r])[..|requests|] == requests;
  }

  // ---------------------------------------------------------------- one accession list

  /** The leave-one-out request for one base accession. */
  function LooRequest(name: string, main: seq<(string, string)>, base: string): Request {
    Request(LooName(name, base), Filter(main, KeepsBase(base)))
  }

  /** The leave-one-out requests for base accessions, in their order. */
  function LooRequestsOf(name: string, main: seq<(string, string)>, bases: seq<string>): seq<Request> {
    seq(|bases|, k requires 0 <= k < |bases| => LooRequest(name, main, bases[k]))
  }

  /** The distinct accessions with their domain marks removed. */
  function Bases(accessions: seq<string>): set<string> {
    set a | a in accessions :: RemoveMarks(a)
  }

  /** The leave-one-out requests: one per distinct unmarked accession, in the order
      `list(set(...))` gives. */
  method LooRequests(name: string, main: seq<(string, string)>, accessions: seq<string>)
    returns (bases: seq<string>, loos: seq<Request>)
    requires DistinctKeys(main)
    ensures Distinct(bases)
    ensures forall b :: b in bases <==> b in Bases(accessions)
    ensures loos == LooRequestsOf(name, main, bases)
  {
    bases := ListOfSet(Bases(accessions));
    loos := [];
    for k := 0 to |bases|
      invariant |loos| == k
      invariant forall m | 0 <= m < k :: loos[m] == LooRequest(name, main, bases[m])
    {
      var loo := LeaveOneOut(main, bases[k]);
      loos := loos + [Request(LooName(name, bases[k]), loo)];
    }
    assert |loos| == |bases|;
  }

  /** The main profile's request for one accession list. */
  method MainRequest(file: string, lines: seq<string>, fasta: seq<(string, string)>) returns (r: Request)
    requires DistinctKeys(fasta)
    ensures r == Request(StrippedName(file), Selected(AccessionList(lines), fasta))
    ensures DistinctKeys(r.sequences)
  {
    var accessions := ReadAccessions(lines);
    var main := ProfileSequences(accessions, fasta);
    r := Request(StrippedName(file), main);
  }

  /** The requests for one accession list: the main profile first, then, when asked, the
      leave-one-out profiles. */
  method ProfileRequests(file: string, lines: seq<string>, fasta: seq<(string, string)>, leaveOneOut: bool)
    returns (bases: seq<string>, requests: seq<Request>)
    requires DistinctKeys(fasta)
    ensures Distinct(bases)
    ensures leaveOneOut ==> forall b :: b in bases <==> b in Bases(AccessionList(lines))
    ensures !leaveOneOut ==> bases == []
    ensures var selected := Selected(AccessionList(lines), fasta);
      requests == [Request(StrippedName(file), selected)] + LooRequestsOf(StrippedName(file), selected, bases)
  {
    var main := MainRequest(file, lines, fasta);
    var loos: seq<Request> := [];
    bases := [];
    if leaveOneOut {
      bases, loos := LooRequests(main.name, main.sequences, AccessionList(lines));
    } else {
      assert loos == LooRequestsOf(main.name, main.sequences, bases);
    }
    requests := [main] + loos;
  }

  // ---------------------------------------------------------------- the script

  /** The requests of one accession list made in turn: each is built unless its profile file is
      present in `present`, which gains the files built. */
  method BuildRequests(rs: seq<Request>, hmmDir: string, existing: set<string>,
                       requests0: seq<Request>, builds0: seq<Build>, present0: set<string>)
    returns (requests: seq<Request>, builds: seq<Build>, present: set<string>)
    requires builds0 == Performed(requests0, hmmDir, existing)
    requires present0 == existing + FilesOf(builds0)
    ensures requests == requests0 + rs
    ensures builds == Performed(requests, hmmDir, existing)
    ensures present == existing + FilesOf(builds)
  {
    requests, builds, present := requests0, builds0, present0;
    for k := 0 to |rs|
      invariant requests == requests0 + rs[..k]
      invariant builds == Performed(requests, hmmDir, existing)
      invariant present == existing + FilesOf(builds)
    {
      AppendPrefixStep(requests0, rs, k);
      var build := BuildHmm(rs[k].sequences, hmmDir, rs[k].name, present);
      PerformedStep(requests, rs[k], hmmDir, existing);
      if build.Some? {
        FilesOfSnoc(builds, build.value);
        builds := builds + [build.value];
        present := present + {build.value.file};
      }
      requests := requests + [rs[k]];
    }
    assert rs[..|rs|] == rs;
  }

  /** The leave-one-out requests of a list: one per base accession, each once, in some order. */
  ghost predicate LooBlock(name: string, main: seq<(string, string)>, bases: set<string>, loos: seq<Request>) {
    exists order: seq<string> :: Distinct(order) && (forall b :: b in order <==> b in bases)
                                 && loos == LooRequestsOf(name, main, order)
  }

  /** The requests one accession list leads to: its main profile first, then, when asked, its
      leave-one-out profiles, and nothing else. */
  ghost predicate FileRequests(file: string, lines: seq<string>, fasta: seq<(string, string)>, leaveOneOut: bool,
                               rs: seq<Request>) {
    && |rs| >= 1
    && rs[0] == Request(StrippedName(file), Selected(AccessionList(lines), fasta))
    && (if leaveOneOut then LooBlock(StrippedName(file), rs[0].sequences, Bases(AccessionList(lines)), rs[1..])
        else |rs| == 1)
  }

  /** Blocks of requests laid end to end. */
  function Flatten(blocks: seq<seq<Request>>): seq<Request>
    decreases |blocks|
  {
    if blocks == [] then [] else Flatten(blocks[..|blocks| - 1]) + blocks[|blocks| - 1]
  }

  /** What `ProfileRequests` returns is the list's requests. */
  lemma ProfileRequestsMade(file: string, lines: seq<string>, fasta: seq<(string, string)>, leaveOneOut: bool,
                            bases: seq<string>, rs: seq<Request>)
    requires Distinct(bases)
    requires leaveOneOut ==> forall b :: b in bases <==> b in Bases(AccessionList(lines))
    requires !leaveOneOut ==> bases == []
    requires var selected := Selected(AccessionList(lines), fasta);
      rs == [Request(StrippedName(file), selected)] + LooRequestsOf(StrippedName(file), selected, bases)
    ensures FileRequests(file, lines, fasta, leaveOneOut, rs)
  {
    var selected := Selected(AccessionList(lines), fasta);
    assert rs[1..] == LooRequestsOf(StrippedName(file), selected, bases);
  }

  /** The blocks are what the first lists lead to, block g for list g. */
  ghost predicate ListBlocks(files: seq<(string, seq<string>)>, fasta: seq<(string, string)>, leaveOneOut: bool,
                             blocks: seq<seq<Request>>)
    decreases |blocks|
  {
    && |blocks| <= |files|
    && (blocks != [] ==>
          && ListBlocks(files, fasta, leaveOneOut, blocks[..|blocks| - 1])
          && FileRequests(files[|blocks| - 1].0, files[|blocks| - 1].1, fasta, leaveOneOut, blocks[|blocks| - 1]))
  }

  /** One more list's block of requests. */
  lemma ListBlocksStep(files: seq<(string, seq<string>)>, fasta: seq<(string, string)>, leaveOneOut: bool,
                       blocks: seq<seq<Request>>, rs: seq<Request>)
    requires |blocks| < |files| && ListBlocks(files, fasta, leaveOneOut, blocks)
    requires FileRequests(files[|blocks|].0, files[|blocks|].1, fasta, leaveOneOut, rs)
    ensures ListBlocks(files, fasta, leaveOneOut, blocks + [rs])
    ensures Flatten(blocks + [rs]) == Flatten(blocks) + rs
  {
    var more := blocks + [rs];
    assert more[..|more| - 1] == blocks && more[|more| - 1] == rs;
    assert files[|more| - 1] == files[|blocks|];
  }

  /** Block g holds the requests list g leads to. */
  lemma {:induction false} ListBlocksAt(files: seq<(string, seq<string>)>, fasta: seq<(string, string)>, leaveOneOut: bool,
                                        blocks: seq<seq<Request>>, g: nat)
    requires ListBlocks(files, fasta, leaveOneOut, blocks) && g < |blocks|
    ensures FileRequests(files[g].0, files[g].1, fasta, leaveOneOut, blocks[g])
    decreases |blocks|
  {
    var init := blocks[..|blocks| - 1];
    if g < |init| {
      ListBlocksAt(files, fasta, leaveOneOut, init, g);
      assert init[g] == blocks[g];
    } else {
      assert g == |blocks| - 1;
    }
  }

  /** `main`: the accession lists in the order the directory listing gives, each with its lines,
      against the FASTA dictionary; `existing` is the set of files present in the profile
      directory at the start. Returns the requests made and the builds done; `blocks` splits the
      requests list by list, each block being what its list leads to. */
  method BuildProfiles(accessionFiles: seq<(string, seq<string>)>, fasta: seq<(string, string)>, hmmDir: string,
                       leaveOneOut: bool, existing: set<string>)
    returns (requests: seq<Request>, builds: seq<Build>, ghost blocks: seq<seq<Request>>)
    requires DistinctKeys(fasta)
    ensures |blocks| == |accessionFiles| && requests == Flatten(blocks)
    ensures ListBlocks(accessionFiles, fasta, leaveOneOut, blocks)
    ensures builds == Performed(requests, hmmDir, existing)
    ensures |requests| >= |accessionFiles|
  {
    requests, builds, blocks := [], [], [];
    var present := existing;
    for f := 0 to |accessionFiles|
      invariant |blocks| == f && requests == Flatten(blocks)
      invariant ListBlocks(accessionFiles, fasta, leaveOneOut, blocks)
      invariant builds == Performed(requests, hmmDir, existing)
      invariant present == existing + FilesOf(builds)
      invariant |requests| >= f
    {
      var (file, lines) := accessionFiles[f];
      var bases, rs := ProfileRequests(file, lines, fasta, leaveOneOut);
      ProfileRequestsMade(file, lines, fasta, leaveOneOut, bases, rs);
      ListBlocksStep(accessionFiles, fasta, leaveOneOut, blocks, rs);
      blocks := blocks + [rs];
      requests, builds, present := BuildRequests(rs, hmmDir, existing, requests, builds, present);
    }
  }
}
