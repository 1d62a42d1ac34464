/** `check_hmms.py`: scores every sequence of a FASTA file against every profile built from an
    accession list. A profile's own accessions (its in-group) are scored against the profile built
    without that accession; every other sequence (its out-group) against the full profile. The
    result is a table with one row per profile and sequence: the best bitscore, or 0 without a
    hit, and whether the sequence is in the in-group. */
module CheckHmms {
  import opened Wrappers
  import opened Text
  import opened Collections
  import opened FastaParsing
  import opened HmmNames

  /** The assertion that every listed accession is in the FASTA file, with what its message names. */
  datatype CheckError = MissingAccession(accession: string, file: string)

  // ---------------------------------------------------------------- accession lists

  /** `re.sub("C-|N-", "", line.rstrip())`: a line of a list file as an accession. */
  function Normalised(line: string): string {
    RemoveMarks(RStrip(line))
  }

  /** The accessions of a list file, line by line. */
  function Accessions(lines: seq<string>): (r: seq<string>)
    ensures |r| == |lines|
    ensures forall k | 0 <= k < |lines| :: r[k] == Normalised(lines[k])
  {
    seq(|lines|, k requires 0 <= k < |lines| => Normalised(lines[k]))
  }

  /** Position of the first accession that is not an id, or |accs| when there is none. */
  function FirstStray(accs: seq<string>, ids: set<string>): (i: nat)
    ensures i <= |accs|
    ensures i < |accs| ==> accs[i] !in ids
    ensures forall j | 0 <= j < i :: accs[j] in ids
  {
    if accs == [] then 0 else if accs[0] !in ids then 0 else 1 + FirstStray(accs[1..], ids)
  }

  /** One list file read as a set of accessions; the first accession that is not an id of the
      FASTA file fails the assertion. */
  function ListIn(file: string, accs: seq<string>, ids: set<string>): Result<set<string>, CheckError> {
    var k := FirstStray(accs, ids);
    if k < |accs| then Failure(MissingAccession(accs[k], file)) else Success(set a | a in accs)
  }

  /** A list is read exactly when all its accessions are ids, and then it is the set of them; the
      failure names the file and an accession of it that is not an id. */
  lemma ListInSpec(file: string, accs: seq<string>, ids: set<string>)
    ensures ListIn(file, accs, ids).Success? <==> forall k | 0 <= k < |accs| :: accs[k] in ids
    ensures ListIn(file, accs, ids).Success? ==>
              ListIn(file, accs, ids).value <= ids && forall a :: a in ListIn(file, accs, ids).value <==> a in accs
    ensures ListIn(file, accs, ids).Failure? ==>
              var e := ListIn(file, accs, ids).error;
              e.file == file && e.accession in accs && e.accession !in ids
  {
    var k := FirstStray(accs, ids);
    if k == |accs| {
      assert forall a | a in accs :: a in ids by {
        forall a | a in accs ensures a in ids {
          var j :| 0 <= j < |accs| && accs[j] == a;
        }
      }
    }
  }

  /** The loop over one list file's lines. */
  method ReadList(file: string, lines: seq<string>, ids: set<string>) returns (r: Result<set<string>, CheckError>)
    ensures r == ListIn(file, Accessions(lines), ids)
  {
    ghost var accs := Accessions(lines);
    var accessionsIn: set<string> := {};
    for i := 0 to |lines|
      invariant forall j | 0 <= j < i :: accs[j] in ids
      invariant accessionsIn == set a | a in accs[..i]
    {
      var accession := Normalised(lines[i]);
      if accession !in ids {
        assert FirstStray(accs, ids) == i;
        return Failure(MissingAccession(accession, file));
      }
      assert accs[..i + 1] == accs[..i] + [accession];
      accessionsIn := accessionsIn + {accession};
    }
    assert accs[..|lines|] == accs;
    assert FirstStray(accs, ids) == |accs|;
    r := Success(accessionsIn);
  }

  // ---------------------------------------------------------------- in-groups and out-groups

  /** A profile's accessions in the order `list(set)` gives: the in-group, then every other id. */
  datatype Group = Group(ins: seq<string>, outs: seq<string>)

  /** A list file as the profile it names and its accession set. */
  function FileEntry(ids: set<string>, file: (string, seq<string>)): Result<(string, set<string>), CheckError> {
    match ListIn(file.0, Accessions(file.1), ids)
    case Failure(e) => Failure(e)
    case Success(ins) => Success((HmmName(file.0), ins))
  }

  /** The list files read in order; the first that fails fails them all. */
  function Entries(ids: set<string>, files: seq<(string, seq<string>)>): Result<seq<(string, set<string>)>, CheckError> {
    MapAll(files, f => FileEntry(ids, f))
  }

  /** The two lists of a profile split the ids: neither repeats an accession, the in-group holds
      exactly the profile's accessions and the out-group exactly the other ids. */
  ghost predicate Splits(g: Group, ins: set<string>, ids: set<string>) {
    Distinct(g.ins) && Distinct(g.outs)
    && (forall a :: a in g.ins <==> a in ins)
    && (forall a :: a in g.outs <==> a in ids && a !in ins)
  }

  /** Profiles in the order of the profile dictionary, each split according to its accession set. */
  ghost predicate Matches(groups: seq<(string, Group)>, sets: seq<(string, set<string>)>, ids: set<string>) {
    |groups| == |sets| && forall i | 0 <= i < |groups| :: groups[i].0 == sets[i].0 && Splits(groups[i].1, sets[i].1, ids)
  }

  /** Dictionaries with the same keys in the same order find a key at the same position. */
  lemma {:induction false} KeyIndexSameKeys<V, W>(a: seq<(string, V)>, b: seq<(string, W)>, k: string)
    requires |a| == |b| && forall i | 0 <= i < |a| :: a[i].0 == b[i].0
    ensures KeyIndex(a, k) == KeyIndex(b, k)
  {
  }

  /** Assigning a profile's lists in the dictionary of lists follows assigning its set in the
      dictionary of sets. */
  lemma GroupsStep(groups: seq<(string, Group)>, entries: seq<(string, set<string>)>, ids: set<string>,
                   name: string, g: Group, ins: set<string>)
    requires Matches(groups, DictOf(entries), ids) && Splits(g, ins, ids)
    ensures Matches(Assigned(groups, (name, g)), DictOf(entries + [(name, ins)]), ids)
  {
    var d := DictOf(entries);
    KeyIndexSameKeys(groups, d, name);
    assert (entries + [(name, ins)])[..|entries|] == entries;
    assert DictOf(entries + [(name, ins)]) == Assigned(d, (name, ins));
  }

  /** The loop over the list files: a later file naming the same profile replaces its lists and
      keeps its position. */
  method ReadGroups(ids: set<string>, files: seq<(string, seq<string>)>) returns (r: Result<seq<(string, Group)>, CheckError>)
    ensures r.Failure? <==> Entries(ids, files).Failure?
    ensures r.Failure? ==> r.error == Entries(ids, files).error
    ensures r.Success? ==> Matches(r.value, DictOf(Entries(ids, files).value), ids)
  {
    ghost var f := file => FileEntry(ids, file);
    var groups: seq<(string, Group)> := [];
    ghost var entries: seq<(string, set<string>)> := [];
    for i := 0 to |files|
      invariant MapAll(files[..i], f) == Success(entries)
      invariant Matches(groups, DictOf(entries), ids)
    {
      MapAllStep(files, f, i, entries);
      var hmmName := HmmName(files[i].0);
      var read := ReadList(files[i].0, files[i].1, ids);
      if read.Failure? {
        MapAllStops(files, f, i + 1);
        return Failure(read.error);
      }
      var accessionsOut := ListOfSet(ids - read.value);
      var accessionsIn := ListOfSet(read.value);
      var g := Group(accessionsIn, accessionsOut);
      assert Splits(g, read.value, ids);
      GroupsStep(groups, entries, ids, hmmName, g, read.value);
      groups := Assigned(groups, (hmmName, g));
      entries := entries + [(hmmName, read.value)];
    }
    assert files[..|files|] == files;
    r := Success(groups);
  }

  /** When every list is read, each profile named by a file appears once; its accession set is
      the one of the last file naming it; and every entry is its file's profile name and set. */
  lemma GroupsSpec(ids: set<string>, files: seq<(string, seq<string>)>)
    requires Entries(ids, files).Success?
    ensures var entries := Entries(ids, files).value;
      var d := DictOf(entries);
      && |entries| == |files|
      && (forall k | 0 <= k < |files| ::
            entries[k].0 == HmmName(files[k].0)
            && (forall a :: a in entries[k].1 <==> a in Accessions(files[k].1))
            && entries[k].1 <= ids)
      && DistinctKeys(d)
      && (forall k | 0 <= k < |files| :: KeyIndex(d, HmmName(files[k].0)) < |d|)
      && (forall i | 0 <= i < |d| :: LastValue(entries, d[i].0) == Some(d[i].1))
  {
    var entries := Entries(ids, files).value;
    MapAllSpec(files, f => FileEntry(ids, f));
    forall k | 0 <= k < |files|
      ensures entries[k].0 == HmmName(files[k].0)
      ensures forall a :: a in entries[k].1 <==> a in Accessions(files[k].1)
      ensures entries[k].1 <= ids
    {
      ListInSpec(files[k].0, Accessions(files[k].1), ids);
    }
    DictOfSpec(entries);
  }

  // ---------------------------------------------------------------- hits

  /** One high-scoring pair of the hmmscan output: the profile hit, the sequence, the bitscore. */
  datatype Hsp = Hsp(hitId: string, queryId: string, bitscore: real)

  /** `all_results[hit][query]`: the bitscores of the pairs of a profile and a sequence, in the
      order hmmscan reported them. */
  function ScoresOf(hits: seq<Hsp>, key: (string, string)): seq<real>
    decreases |hits|
  {
    if hits == [] then []
    else
      var h := hits[|hits| - 1];
      ScoresOf(hits[..|hits| - 1], key) + (if (h.hitId, h.queryId) == key then [h.bitscore] else [])
  }

  /** The scores of a pair are exactly the bitscores of its hits. */
  lemma {:induction false} ScoresOfSpec(hits: seq<Hsp>, key: (string, string))
    ensures forall x :: x in ScoresOf(hits, key) <==>
              exists k | 0 <= k < |hits| :: hits[k].hitId == key.0 && hits[k].queryId == key.1 && hits[k].bitscore == x
    ensures ScoresOf(hits, key) == [] <==> forall k | 0 <= k < |hits| :: hits[k].hitId != key.0 || hits[k].queryId != key.1
    decreases |hits|
  {
    if hits != [] {
      var init := hits[..|hits| - 1];
      ScoresOfSpec(init, key);
      assert forall k | 0 <= k < |init| :: init[k] == hits[k];
    }
  }

  /** The hit table: exactly the pairs with a hit, each with its scores. */
  ghost predicate Tabulates(table: map<(string, string), seq<real>>, hits: seq<Hsp>) {
    forall key :: (key in table <==> ScoresOf(hits, key) != []) && (key in table ==> table[key] == ScoresOf(hits, key))
  }

  /** The loop that fills `all_results`. */
  method CollectHits(hits: seq<Hsp>) returns (table: map<(string, string), seq<real>>)
    ensures Tabulates(table, hits)
  {
    table := map[];
    for i := 0 to |hits|
      invariant Tabulates(table, hits[..i])
    {
      var hsp := hits[i];
      var key := (hsp.hitId, hsp.queryId);
      assert hits[..i + 1][..i] == hits[..i];
      if key in table {
        table := table[key := table[key] + [hsp.bitscore]];
      } else {
        table := table[key := [hsp.bitscore]];
      }
      forall other ensures ScoresOf(hits[..i + 1], other) == ScoresOf(hits[..i], other) + (if other == key then [hsp.bitscore] else []) {
      }
    }
    assert hits[..|hits|] == hits;
  }

  // ---------------------------------------------------------------- best scores

  /** `max(scores)` */
  function Max(s: seq<real>): (m: real)
    requires |s| > 0
    ensures m in s
    ensures forall k | 0 <= k < |s| :: s[k] <= m
  {
    if |s| == 1 then s[0]
    else
      var m := Max(s[..|s| - 1]);
      assert forall k | 0 <= k < |s| - 1 :: s[..|s| - 1][k] == s[k];
      if s[|s| - 1] > m then s[|s| - 1] else m
  }

  /** A score cell: the best bitscore, or the integer 0 the handler writes without a hit. */
  datatype Score = NoHit | Best(bits: real)

  /** The best score of a pair: its `max`, or 0 when `all_results` has no list for it. */
  function TopScore(hits: seq<Hsp>, key: (string, string)): Score {
    var s := ScoresOf(hits, key);
    if s == [] then NoHit else Best(Max(s))
  }

  /** A pair scores 0 exactly when it has no hit; otherwise its score is the bitscore of one of
      its hits and no hit of it scores higher. */
  lemma TopScoreSpec(hits: seq<Hsp>, key: (string, string))
    ensures TopScore(hits, key).NoHit? <==> forall k | 0 <= k < |hits| :: hits[k].hitId != key.0 || hits[k].queryId != key.1
    ensures TopScore(hits, key).Best? ==>
              (exists k | 0 <= k < |hits| :: hits[k].hitId == key.0 && hits[k].queryId == key.1 && hits[k].bitscore == TopScore(hits, key).bits)
              && forall k | 0 <= k < |hits| && hits[k].hitId == key.0 && hits[k].queryId == key.1 :: hits[k].bitscore <= TopScore(hits, key).bits
  {
    ScoresOfSpec(hits, key);
    var s := ScoresOf(hits, key);
    if s != [] {
      var m := Max(s);
      forall k | 0 <= k < |hits| && hits[k].hitId == key.0 && hits[k].queryId == key.1
        ensures hits[k].bitscore <= m
      {
        assert hits[k].bitscore in s;
      }
    }
  }

  /** An in-group row: the accession scored against the profile built without it. */
  datatype ScoreRow = ScoreRow(profile: string, accession: string, score: Score, ingroup: bool)

  function InRow(hits: seq<Hsp>, name: string, accession: string): ScoreRow {
    ScoreRow(name, accession, TopScore(hits, (LooName(name, accession), accession)), true)
  }

  /** An out-group row: the accession scored against the full profile. */
  function OutRow(hits: seq<Hsp>, name: string, accession: string): ScoreRow {
    ScoreRow(name, accession, TopScore(hits, (name, accession)), false)
  }

  function InRows(hits: seq<Hsp>, name: string, accessions: seq<string>): (r: seq<ScoreRow>)
    ensures |r| == |accessions|
    ensures forall k | 0 <= k < |r| :: r[k] == InRow(hits, name, accessions[k])
    decreases |accessions|
  {
    if accessions == [] then []
    else InRows(hits, name, accessions[..|accessions| - 1]) + [InRow(hits, name, accessions[|accessions| - 1])]
  }

  function OutRows(hits: seq<Hsp>, name: string, accessions: seq<string>): (r: seq<ScoreRow>)
    ensures |r| == |accessions|
    ensures forall k | 0 <= k < |r| :: r[k] == OutRow(hits, name, accessions[k])
    decreases |accessions|
  {
    if accessions == [] then []
    else OutRows(hits, name, accessions[..|accessions| - 1]) + [OutRow(hits, name, accessions[|accessions| - 1])]
  }

  /** The rows of one profile in `scores_per_hmm[hmm_name]`: its in-group, then its out-group
      (the two lists never share an accession, so no assignment overwrites another). */
  function GroupRows(hits: seq<Hsp>, name: string, g: Group): seq<ScoreRow> {
    InRows(hits, name, g.ins) + OutRows(hits, name, g.outs)
  }

  /** All rows, profile by profile. */
  function RowsOf(hits: seq<Hsp>, groups: seq<(string, Group)>): seq<ScoreRow>
    decreases |groups|
  {
    if groups == [] then []
    else
      var last := groups[|groups| - 1];
      RowsOf(hits, groups[..|groups| - 1]) + GroupRows(hits, last.0, last.1)
  }

  /** Row `k` of a profile: an in-group row for the first `|g.ins|` positions, then out-group rows. */
  lemma GroupRowAt(hits: seq<Hsp>, name: string, g: Group, k: nat)
    requires k < |g.ins| + |g.outs|
    ensures |GroupRows(hits, name, g)| == |g.ins| + |g.outs|
    ensures GroupRows(hits, name, g)[k] ==
      if k < |g.ins| then InRow(hits, name, g.ins[k]) else OutRow(hits, name, g.outs[k - |g.ins|])
  {
  }

  /** No accession has two rows in one profile. */
  lemma GroupRowsDistinct(hits: seq<Hsp>, name: string, g: Group, ins: set<string>, ids: set<string>)
    requires Splits(g, ins, ids)
    ensures forall i, j | 0 <= i < j < |GroupRows(hits, name, g)| ::
      GroupRows(hits, name, g)[i].accession != GroupRows(hits, name, g)[j].accession
  {
    var rows, n := GroupRows(hits, name, g), |g.ins|;
    forall i, j | 0 <= i < j < |rows| ensures rows[i].accession != rows[j].accession {
      GroupRowAt(hits, name, g, i);
      GroupRowAt(hits, name, g, j);
      if j < n {
        assert rows[i].accession == g.ins[i] && rows[j].accession == g.ins[j];
      } else if i < n {
        assert rows[i].accession in ins && rows[j].accession !in ins;
      } else {
        assert rows[i].accession == g.outs[i - n] && rows[j].accession == g.outs[j - n];
      }
    }
  }

  /** Every id, and nothing else, has a row in each profile. */
  lemma GroupRowsIds(hits: seq<Hsp>, name: string, g: Group, ins: set<string>, ids: set<string>)
    requires Splits(g, ins, ids) && ins <= ids
    ensures forall a :: a in ids <==>
      exists k | 0 <= k < |GroupRows(hits, name, g)| :: GroupRows(hits, name, g)[k].accession == a
  {
    var rows, n := GroupRows(hits, name, g), |g.ins|;
    forall a ensures a in ids <==> exists k | 0 <= k < |rows| :: rows[k].accession == a {
      if a in ids {
        if a in ins {
          var k :| 0 <= k < n && g.ins[k] == a;
          GroupRowAt(hits, name, g, k);
          assert rows[k].accession == a;
        } else {
          var k :| 0 <= k < |g.outs| && g.outs[k] == a;
          GroupRowAt(hits, name, g, n + k);
          assert rows[n + k].accession == a;
        }
      }
      if exists k | 0 <= k < |rows| :: rows[k].accession == a {
        var k :| 0 <= k < |rows| && rows[k].accession == a;
        GroupRowAt(hits, name, g, k);
        if k < n {
          assert g.ins[k] == a;
        } else {
          assert g.outs[k - n] == a;
        }
      }
    }
  }

  /** Each row names the profile, is in-group exactly when its accession is listed, and holds the
      score against the profile built without it when in-group, against the full profile otherwise. */
  lemma GroupRowsMarks(hits: seq<Hsp>, name: string, g: Group, ins: set<string>, ids: set<string>)
    requires Splits(g, ins, ids)
    ensures forall k | 0 <= k < |GroupRows(hits, name, g)| ::
      var row := GroupRows(hits, name, g)[k];
      row.profile == name
      && (row.ingroup <==> row.accession in ins)
      && row.score == TopScore(hits, if row.ingroup then (LooName(name, row.accession), row.accession) else (name, row.accession))
  {
    var rows, n := GroupRows(hits, name, g), |g.ins|;
    forall k | 0 <= k < |rows|
      ensures rows[k].profile == name
      ensures rows[k].ingroup <==> rows[k].accession in ins
      ensures rows[k].score == TopScore(hits, if rows[k].ingroup then (LooName(name, rows[k].accession), rows[k].accession)
                                              else (name, rows[k].accession))
    {
      GroupRowAt(hits, name, g, k);
      if k < n {
        assert g.ins[k] in ins;
      } else {
        assert g.outs[k - n] in g.outs;
      }
    }
  }

  /** The rows of a profile whose lists split the ids name each id exactly once, mark it in-group
      exactly when the profile's list has it, and score it against the profile built without it
      when in-group and against the full profile otherwise. */
  lemma GroupRowsCover(hits: seq<Hsp>, name: string, g: Group, ins: set<string>, ids: set<string>)
    requires Splits(g, ins, ids) && ins <= ids
    ensures forall i, j | 0 <= i < j < |GroupRows(hits, name, g)| ::
      GroupRows(hits, name, g)[i].accession != GroupRows(hits, name, g)[j].accession
    ensures forall a :: a in ids <==>
      exists k | 0 <= k < |GroupRows(hits, name, g)| :: GroupRows(hits, name, g)[k].accession == a
    ensures forall k | 0 <= k < |GroupRows(hits, name, g)| ::
      var row := GroupRows(hits, name, g)[k];
      row.profile == name
      && (row.ingroup <==> row.accession in ins)
      && row.score == TopScore(hits, if row.ingroup then (LooName(name, row.accession), row.accession) else (name, row.accession))
  {
    GroupRowsDistinct(hits, name, g, ins, ids);
    GroupRowsIds(hits, name, g, ins, ids);
    GroupRowsMarks(hits, name, g, ins, ids);
  }

  /** The `try`/`except` around `max(all_results[...][...])`: a pair missing from the table scores 0. */
  function Retrieve(table: map<(string, string), seq<real>>, key: (string, string)): Score {
    if key in table && table[key] != [] then Best(Max(table[key])) else NoHit
  }

  /** Looking a pair up in the hit table gives its best score among the hits. */
  lemma RetrieveTop(table: map<(string, string), seq<real>>, hits: seq<Hsp>, key: (string, string))
    requires Tabulates(table, hits)
    ensures Retrieve(table, key) == TopScore(hits, key)
  {
  }

  /** The in-group loop of one profile. */
  method ScoreIns(name: string, ins: seq<string>, table: map<(string, string), seq<real>>, ghost hits: seq<Hsp>)
    returns (rows: seq<ScoreRow>)
    requires Tabulates(table, hits)
    ensures rows == InRows(hits, name, ins)
  {
    rows := [];
    for j := 0 to |ins|
      invariant rows == InRows(hits, name, ins[..j])
    {
      var key := (LooName(name, ins[j]), ins[j]);
      RetrieveTop(table, hits, key);
      assert ins[..j + 1][..j] == ins[..j];
      rows := rows + [ScoreRow(name, ins[j], Retrieve(table, key), true)];
    }
    assert ins[..|ins|] == ins;
  }

  /** The out-group loop of one profile. */
  method ScoreOuts(name: string, outs: seq<string>, table: map<(string, string), seq<real>>, ghost hits: seq<Hsp>)
    returns (rows: seq<ScoreRow>)
    requires Tabulates(table, hits)
    ensures rows == OutRows(hits, name, outs)
  {
    rows := [];
    for j := 0 to |outs|
      invariant rows == OutRows(hits, name, outs[..j])
    {
      var key := (name, outs[j]);
      RetrieveTop(table, hits, key);
      assert outs[..j + 1][..j] == outs[..j];
      rows := rows + [ScoreRow(name, outs[j], Retrieve(table, key), false)];
    }
    assert outs[..|outs|] == outs;
  }

  /** The loops that fill `scores_per_hmm`, looking the pairs up in the hit table. */
  method ScoreGroups(groups: seq<(string, Group)>, table: map<(string, string), seq<real>>, ghost hits: seq<Hsp>)
    returns (rows: seq<ScoreRow>)
    requires Tabulates(table, hits)
    ensures rows == RowsOf(hits, groups)
  {
    rows := [];
    for i := 0 to |groups|
      invariant rows == RowsOf(hits, groups[..i])
    {
      var inRows := ScoreIns(groups[i].0, groups[i].1.ins, table, hits);
      var outRows := ScoreOuts(groups[i].0, groups[i].1.outs, table, hits);
      assert groups[..i + 1][..i] == groups[..i];
      rows := rows + (inRows + outRows);
    }
    assert groups[..|groups|] == groups;
  }

  // ---------------------------------------------------------------- the scores file

  const ScoreColumns: seq<string> := ["hmm_profile", "accession", "score", "ingroup"]

  /** `str(score)`: the integer 0, or the bitscore as `fmt` (Python's float repr) writes it. */
  function ScoreText(s: Score, fmt: real -> string): string {
    match s
    case NoHit => "0"
    case Best(b) => fmt(b)
  }

  /** `str(ingroup)` */
  function BoolText(b: bool): string {
    if b then "True" else "False"
  }

  /** The cells of a row. */
  function RowCells(row: ScoreRow, fmt: real -> string): seq<string> {
    [row.profile, row.accession, ScoreText(row.score, fmt), BoolText(row.ingroup)]
  }

  function RowLines(rows: seq<ScoreRow>, fmt: real -> string): (r: seq<string>)
    ensures |r| == |rows|
    ensures forall k | 0 <= k < |rows| :: r[k] == Join(RowCells(rows[k], fmt), "\t")
    decreases |rows|
  {
    if rows == [] then []
    else RowLines(rows[..|rows| - 1], fmt) + [Join(RowCells(rows[|rows| - 1], fmt), "\t")]
  }

  /** The scores file: the header line, then a line per row. */
  function ScoresFile(rows: seq<ScoreRow>, fmt: real -> string): string {
    Terminated([Join(ScoreColumns, "\t")] + RowLines(rows, fmt))
  }

  /** The loop that writes the scores file. */
  method WriteScores(rows: seq<ScoreRow>, fmt: real -> string) returns (text: string)
    ensures text == ScoresFile(rows, fmt)
  {
    var header := Join(ScoreColumns, "\t");
    text := header + "\n";
    ghost var lines: seq<string> := [];
    assert Terminated([header]) == header + "\n" by {
      assert [header][1..] == [];
    }
    for i := 0 to |rows|
      invariant lines == RowLines(rows[..i], fmt)
      invariant text == Terminated([header] + lines)
    {
      var row := rows[i];
      var line := Join([row.profile, row.accession, ScoreText(row.score, fmt), BoolText(row.ingroup)], "\t");
      assert rows[..i + 1][..i] == rows[..i];
      TerminatedSnoc([header] + lines, line);
      assert [header] + lines + [line] == [header] + (lines + [line]);
      text := text + line + "\n";
      lines := lines + [line];
    }
    assert rows[..|rows|] == rows;
  }

  /** Read back line by line, the scores file is its header and one line per row, and each row's
      line splits at its tabs into the row's four cells, when profile names, accessions and
      formatted scores fit in a cell. */
  lemma ScoresReadBack(rows: seq<ScoreRow>, fmt: real -> string)
    requires forall k | 0 <= k < |rows| :: CellText(rows[k].profile) && CellText(rows[k].accession)
    requires forall x :: CellText(fmt(x))
    ensures FileLines(ScoresFile(rows, fmt)) == [Join(ScoreColumns, "\t")] + RowLines(rows, fmt)
    ensures forall k | 0 <= k < |rows| :: Split(RowLines(rows, fmt)[k], "\t") == RowCells(rows[k], fmt)
  {
    HeaderBreakFree();
    RowsReadBackAfter(Join(ScoreColumns, "\t"), rows, fmt);
  }

  /** Any break-free header followed by the rows' lines reads back as those lines. */
  lemma RowsReadBackAfter(header: string, rows: seq<ScoreRow>, fmt: real -> string)
    requires BreakFree(header)
    requires forall k | 0 <= k < |rows| :: CellText(rows[k].profile) && CellText(rows[k].accession)
    requires forall x :: CellText(fmt(x))
    ensures FileLines(Terminated([header] + RowLines(rows, fmt))) == [header] + RowLines(rows, fmt)
    ensures forall k | 0 <= k < |rows| :: Split(RowLines(rows, fmt)[k], "\t") == RowCells(rows[k], fmt)
  {
    RowLinesReadBack(rows, fmt);
    TerminatedHeaderLines([header], RowLines(rows, fmt));
  }

  /** Every row's line holds no line break and splits back into the row's cells. */
  lemma RowLinesReadBack(rows: seq<ScoreRow>, fmt: real -> string)
    requires forall k | 0 <= k < |rows| :: CellText(rows[k].profile) && CellText(rows[k].accession)
    requires forall x :: CellText(fmt(x))
    ensures forall k | 0 <= k < |rows| ::
      BreakFree(RowLines(rows, fmt)[k]) && Split(RowLines(rows, fmt)[k], "\t") == RowCells(rows[k], fmt)
  {
    var lines := RowLines(rows, fmt);
    forall k | 0 <= k < |rows|
      ensures BreakFree(lines[k]) && Split(lines[k], "\t") == RowCells(rows[k], fmt)
    {
      RowLineReadBack(rows[k], fmt);
    }
  }

  /** A row's line holds no line break and splits back into its cells. */
  lemma RowLineReadBack(row: ScoreRow, fmt: real -> string)
    requires CellText(row.profile) && CellText(row.accession)
    requires forall x :: CellText(fmt(x))
    ensures BreakFree(Join(RowCells(row, fmt), "\t"))
    ensures Split(Join(RowCells(row, fmt), "\t"), "\t") == RowCells(row, fmt)
  {
    var cells := RowCells(row, fmt);
    assert CellText(ScoreText(row.score, fmt));
    assert CellText(BoolText(row.ingroup));
    assert forall c | 0 <= c < 4 :: CellText(cells[c]);
    SplitJoinChar(cells, '\t');
    JoinCellsBreakFree(cells);
  }

  /** The header line holds no line break. */
  lemma HeaderBreakFree()
    ensures BreakFree(Join(ScoreColumns, "\t"))
  {
    forall c | 0 <= c < 4 ensures CellText(ScoreColumns[c]) {
    }
    JoinCellsBreakFree(ScoreColumns);
  }

  /** Cells joined with tabs hold no line break. */
  lemma {:induction false} JoinCellsBreakFree(cells: seq<string>)
    requires forall k | 0 <= k < |cells| :: CellText(cells[k])
    ensures BreakFree(Join(cells, "\t"))
    decreases |cells|
  {
    if |cells| > 1 {
      JoinCellsBreakFree(cells[1..]);
      assert forall k | 0 <= k < |cells[1..]| :: cells[1..][k] == cells[k + 1];
    }
  }

  // ---------------------------------------------------------------- main

  /** `main`, with the FASTA ids, the list files (path and lines, in glob order) and the hmmscan
      pairs given: fails on the first listed accession that is not an id; otherwise writes the
      scores of profiles split as their lists say. */
  method CheckHmms(ids: seq<string>, files: seq<(string, seq<string>)>, hits: seq<Hsp>, fmt: real -> string)
    returns (r: Result<string, CheckError>)
    ensures var idSet := set a | a in ids;
      && (r.Failure? <==> Entries(idSet, files).Failure?)
      && (r.Failure? ==> r.error == Entries(idSet, files).error)
      && (r.Success? ==> exists groups :: Matches(groups, DictOf(Entries(idSet, files).value), idSet)
                                          && r.value == ScoresFile(RowsOf(hits, groups), fmt))
  {
    var idSet := set a | a in ids;
    var groups := ReadGroups(idSet, files);
    if groups.Failure? {
      return Failure(groups.error);
    }
    var table := CollectHits(hits);
    var rows := ScoreGroups(groups.value, table, hits);
    var text := WriteScores(rows, fmt);
    r := Success(text);
  }
}
