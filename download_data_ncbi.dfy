/** `download_data_ncbi.py`: manually listed NCBI accessions with their enzyme types become
    records whose organism category and enzyme types are derived from the table and from the
    GenBank entry each accession resolves to. */
module DownloadDataNcbi {
  import opened Wrappers
  import opened Text
  import opened JsonPaths
  import opened FastaParsing

  /** The part of a GenBank entry the script reads: id, description, the organism annotation
      and the taxonomy annotation (a list of clade names). */
  datatype GenbankEntry = GenbankEntry(id: string, description: string, organism: string, taxonomy: seq<string>)

  /** The fields of the record `write_metadata` stores. The record is constructed with no taxid
      and, when the type is "none", with no enzyme type. */
  datatype NcbiDocument = NcbiDocument(database: string, header: string, accession: string, reviewed: bool,
    proteinName: string, taxid: Option<int>, organismName: string, organismCategory: string,
    enzymeType: Option<seq<string>>)

  /** The clades `write_metadata` tests, in order. */
  const Clades: seq<string> := ["Ascomycota", "Basidiomycota", "Bacteria", "Viridiplantae"]

  /** Organism category: the first clade of the list that the taxonomy names, else "Other". */
  function Category(taxonomy: seq<string>): (c: string)
    ensures c == "Ascomycota" <==> "Ascomycota" in taxonomy
    ensures c == "Basidiomycota" <==> "Ascomycota" !in taxonomy && "Basidiomycota" in taxonomy
    ensures c == "Bacteria" <==> "Ascomycota" !in taxonomy && "Basidiomycota" !in taxonomy && "Bacteria" in taxonomy
    ensures c == "Viridiplantae" <==> "Ascomycota" !in taxonomy && "Basidiomycota" !in taxonomy
                                      && "Bacteria" !in taxonomy && "Viridiplantae" in taxonomy
    ensures c == "Other" <==> "Ascomycota" !in taxonomy && "Basidiomycota" !in taxonomy
                              && "Bacteria" !in taxonomy && "Viridiplantae" !in taxonomy
  {
    if "Ascomycota" in taxonomy then "Ascomycota"
    else if "Basidiomycota" in taxonomy then "Basidiomycota"
    else if "Bacteria" in taxonomy then "Bacteria"
    else if "Viridiplantae" in taxonomy then "Viridiplantae"
    else "Other"
  }

  /** The category is the clade at the first position of the list whose test holds, and
      "Other" when no test holds. */
  lemma CategoryFirstClade(taxonomy: seq<string>, i: nat)
    requires i <= |Clades|
    requires forall k | 0 <= k < i :: Clades[k] !in taxonomy
    ensures i < |Clades| && Clades[i] in taxonomy ==> Category(taxonomy) == Clades[i]
    ensures i == |Clades| ==> Category(taxonomy) == "Other"
  {
    assert Clades[0] == "Ascomycota" && Clades[1] == "Basidiomycota";
    assert Clades[2] == "Bacteria" && Clades[3] == "Viridiplantae";
  }

  /** The enzyme-type column as lines 50-53 read it: the raw field is compared with "none"
      before its trailing whitespace is removed. */
  function EnzymeTypeFieldAsWritten(raw: string): Option<seq<string>> {
    if raw == "none" then None else Some(Split(RStrip(raw), ", "))
  }

  /** The last column of a table line keeps the line's newline, so a "none" there is not
      recognised and becomes the label list ["none"]. */
  lemma NoneLastColumnKept()
    ensures EnzymeTypeFieldAsWritten("none\n") == Some(["none"])
  {
    assert RStrip("none\n") == "none" by {
      assert "none\n"[..4] == "none";
    }
    SplitNone();
  }

  /** The enzyme-type column read as intended: "none", with or without trailing whitespace,
      means no type; anything else is split on ", " after removing that whitespace. */
  function EnzymeTypeField(raw: string): (r: Option<seq<string>>)
    ensures r.None? <==> RStrip(raw) == "none"
  {
    var field := RStrip(raw);
    if field == "none" then None else Some(Split(field, ", "))
  }

  /** Whatever line terminator follows it, a "none" column means no enzyme type, and a type
      column holds the ", "-separated parts of its text. */
  lemma EnzymeTypeFieldIgnoresTerminator(text: string, terminator: string)
    requires forall i | 0 <= i < |terminator| :: IsSpace(terminator[i])
    requires text == [] || !IsSpace(text[|text| - 1])
    ensures RStrip(text + terminator) == text
    ensures EnzymeTypeField(text + terminator) == if text == "none" then None else Some(Split(text, ", "))
  {
    RStripSpaces(text, terminator);
  }

  lemma {:induction false} RStripSpaces(text: string, terminator: string)
    requires forall i | 0 <= i < |terminator| :: IsSpace(terminator[i])
    requires text == [] || !IsSpace(text[|text| - 1])
    ensures RStrip(text + terminator) == text
    decreases |terminator|
  {
    if terminator == [] {
      assert text + terminator == text;
    } else {
      var shorter := terminator[..|terminator| - 1];
      assert (text + terminator)[..|text + terminator| - 1] == text + shorter;
      RStripSpaces(text, shorter);
    }
  }

  /** The two readings differ exactly on a column that is "none" only once its trailing
      whitespace is removed, such as the last column "none\n": there the script stores the list
      ["none"] where no enzyme type was meant. */
  lemma AsWrittenAgreesWithIntended(raw: string)
    ensures EnzymeTypeFieldAsWritten(raw) != EnzymeTypeField(raw) <==> raw != "none" && RStrip(raw) == "none"
    ensures raw != "none" && RStrip(raw) == "none" ==> EnzymeTypeFieldAsWritten(raw) == Some(["none"])
  {
    if raw == "none" {
      assert RStrip("none") == "none" by {
        RStripSpaces("none", "");
        assert "none" + "" == "none";
      }
    } else if RStrip(raw) == "none" {
      SplitNone();
    }
  }

  /** "none" holds no ", " separator. */
  lemma SplitNone()
    ensures Split("none", ", ") == ["none"]
  {
    forall j
      ensures !OccursAt("none", ", ", j)
    {
      if 0 <= j && j + 2 <= 4 {
        assert "none"[j..j + 2][0] == "none"[j];
      }
    }
  }

  /** The record `write_metadata` writes for a GenBank entry and its table enzyme type, with the
      type column read as the script reads it. */
  ghost predicate Describes(doc: NcbiDocument, entry: GenbankEntry, enzymeType: string) {
    && doc.database == "ncbi" && doc.header == entry.id + " " + entry.description
    && doc.accession == entry.id && doc.reviewed && doc.proteinName == entry.description
    && doc.taxid == None && doc.organismName == entry.organism
    && doc.organismCategory == Category(entry.taxonomy)
    && doc.enzymeType == EnzymeTypeFieldAsWritten(enzymeType)
  }

  /** `write_metadata`: the fields set one after another, the clade loop with its early exit,
      and the document path. */
  method WriteMetadata(entry: GenbankEntry, enzymeType: string, jsonDir: string) returns (path: string, doc: NcbiDocument)
    ensures path == DocumentPath(jsonDir, entry.id)
    ensures Describes(doc, entry, enzymeType)
  {
    var category := "";
    var i := 0;
    while i < |Clades|
      invariant 0 <= i <= |Clades|
      invariant forall k | 0 <= k < i :: Clades[k] !in entry.taxonomy
      invariant category == if i == 0 then "" else "Other"
    {
      if Clades[i] in entry.taxonomy {
        category := Clades[i];
        CategoryFirstClade(entry.taxonomy, i);
        break;
      }
      category := "Other";
      i := i + 1;
    }
    CategoryFirstClade(entry.taxonomy, i);
    var types: Option<seq<string>>;
    if enzymeType != "none" {
      types := Some(Split(RStrip(enzymeType), ", "));
    } else {
      types := None;
    }
    doc := NcbiDocument("ncbi", entry.id + " " + entry.description, entry.id, true, entry.description, None,
                        entry.organism, category, types);
    path := jsonDir + "/" + entry.id + ".json";
  }

  // ---------------------------------------------------------------- the accession table

  datatype TableError = EmptyTable | MissingColumn(line: nat)

  /** A data line holds at least an accession column and an enzyme-type column. */
  predicate HasTwoColumns(line: string) {
    |Split(line, "\t")| >= 2
  }

  /** `line.split('\t')[0:2]` */
  function RowPair(line: string): (string, string)
    requires HasTwoColumns(line)
  {
    var fields := Split(line, "\t");
    (fields[0], fields[1])
  }

  function RowPairs(rows: seq<string>): (r: seq<(string, string)>)
    requires forall k | 0 <= k < |rows| :: HasTwoColumns(rows[k])
    ensures |r| == |rows| && forall k | 0 <= k < |rows| :: r[k] == RowPair(rows[k])
  {
    seq(|rows|, k requires 0 <= k < |rows| && HasTwoColumns(rows[k]) => RowPair(rows[k]))
  }

  lemma RowPairsSnoc(rows: seq<string>, line: string)
    requires forall k | 0 <= k < |rows| :: HasTwoColumns(rows[k])
    requires HasTwoColumns(line)
    ensures RowPairs(rows + [line]) == RowPairs(rows) + [RowPair(line)]
  {
  }

  /** One step of filling the `accessions` dictionary: the dictionary of one more row is the
      dictionary so far with that row's pair assigned. */
  lemma TableStep(lines: seq<string>, i: nat)
    requires 1 <= i < |lines|
    requires forall k | 1 <= k <= i :: HasTwoColumns(lines[k])
    ensures DictOf(RowPairs(lines[1..i + 1])) == Assigned(DictOf(RowPairs(lines[1..i])), RowPair(lines[i]))
  {
    var pairs, longer := RowPairs(lines[1..i]), RowPairs(lines[1..i + 1]);
    assert lines[1..i + 1] == lines[1..i] + [lines[i]];
    RowPairsSnoc(lines[1..i], lines[i]);
    assert longer[..|pairs|] == pairs;
  }

  /** `accessions[accession] = enzyme_type` */
  method AssignRow(accessions: seq<(string, string)>, accession: string, enzymeType: string)
    returns (d: seq<(string, string)>)
    ensures d == Assigned(accessions, (accession, enzymeType))
  {
    var j := KeyIndex(accessions, accession);
    if j < |accessions| {
      d := accessions[j := (accession, enzymeType)];
    } else {
      d := accessions + [(accession, enzymeType)];
    }
  }

  /** The table loop of `main`, over the lines as the file yields them: the first line is
      skipped, every other line gives an (accession, enzyme type) pair, and a repeated
      accession keeps its first position and takes the later type. A file without lines stops
      at the header skip, a line with one column at the unpacking. */
  method ReadTable(lines: seq<string>) returns (r: Result<seq<(string, string)>, TableError>)
    ensures lines == [] <==> r == Failure(EmptyTable)
    ensures r.Success? <==> lines != [] && forall k | 1 <= k < |lines| :: HasTwoColumns(lines[k])
    ensures r.Failure? && r.error.MissingColumn? ==>
              1 <= r.error.line < |lines| && !HasTwoColumns(lines[r.error.line])
              && forall k | 1 <= k < r.error.line :: HasTwoColumns(lines[k])
    ensures r.Success? ==> r.value == DictOf(RowPairs(lines[1..]))
  {
    if lines == [] {
      return Failure(EmptyTable);
    }
    var accessions: seq<(string, string)> := [];
    var i := 1;
    while i < |lines|
      invariant 1 <= i <= |lines|
      invariant forall k | 1 <= k < i :: HasTwoColumns(lines[k])
      invariant accessions == DictOf(RowPairs(lines[1..i]))
    {
      var fields := Split(lines[i], "\t");
      if |fields| < 2 {
        return Failure(MissingColumn(i));
      }
      TableStep(lines, i);
      accessions := AssignRow(accessions, fields[0], fields[1]);
      i := i + 1;
    }
    assert lines[1..i] == lines[1..];
    r := Success(accessions);
  }

  /** What the table loop leaves: every accession of the table once, with the enzyme type of
      its last line. */
  lemma TableLaterWins(lines: seq<string>)
    requires lines != [] && forall k | 1 <= k < |lines| :: HasTwoColumns(lines[k])
    ensures DistinctKeys(DictOf(RowPairs(lines[1..])))
    ensures forall k | 1 <= k < |lines| :: KeyIndex(DictOf(RowPairs(lines[1..])), RowPair(lines[k]).0) < |DictOf(RowPairs(lines[1..]))|
    ensures forall i | 0 <= i < |DictOf(RowPairs(lines[1..]))| ::
              LastValue(RowPairs(lines[1..]), DictOf(RowPairs(lines[1..]))[i].0) == Some(DictOf(RowPairs(lines[1..]))[i].1)
  {
    var pairs := RowPairs(lines[1..]);
    DictOfSpec(pairs);
    forall k | 1 <= k < |lines|
      ensures KeyIndex(DictOf(pairs), RowPair(lines[k]).0) < |DictOf(pairs)|
    {
      assert pairs[k - 1] == RowPair(lines[k]);
    }
  }

  /** The download loop of `main`: for each accession of the table, in dictionary order, the
      GenBank entry it resolves to (`download` stands for the NCBI queries and the GenBank
      parse) is written as a document and kept for the FASTA output. */
  method DownloadAll(table: seq<(string, string)>, download: string -> GenbankEntry, jsonDir: string)
    returns (files: seq<(string, NcbiDocument)>, entries: seq<GenbankEntry>)
    ensures |files| == |table| && |entries| == |table|
    ensures forall k | 0 <= k < |table| :: entries[k] == download(table[k].0)
    ensures forall k | 0 <= k < |table| :: files[k].0 == DocumentPath(jsonDir, entries[k].id)
                                           && Describes(files[k].1, entries[k], table[k].1)
  {
    files, entries := [], [];
    for i := 0 to |table|
      invariant |files| == i && |entries| == i
      invariant forall k | 0 <= k < i :: entries[k] == download(table[k].0)
      invariant forall k | 0 <= k < i :: files[k].0 == DocumentPath(jsonDir, entries[k].id)
                                         && Describes(files[k].1, entries[k], table[k].1)
    {
      var (accession, enzymeType) := table[i];
      var entry := download(accession);
      var path, doc := WriteMetadata(entry, enzymeType, jsonDir);
      files := files + [(path, doc)];
      entries := entries + [entry];
    }
  }
}
