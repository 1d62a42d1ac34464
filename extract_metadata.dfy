/** `extract_metadata.py`: the same extraction for the second-generation record, which keeps the
    sequence and labels a class and a subclass; its curation sets both label lists. */
module ExtractMetadata {
  import opened Wrappers
  import opened Collections
  import opened JsonPaths
  import Records
  import InterproRecords
  import opened ExtractMetadataInterpro

  const TerpeneClassLabel: seq<string> := ["terpene synthase"]
  const PrenylClassLabel: seq<string> := ["prenyltransferase"]

  /** The (enzyme_class, enzyme_subclass) `curate_record` leaves: the Aristolochene rule, then
      the GGPP rule, applied in turn to the labels the record had. */
  function CuratedLabels(name: string, classes: seq<string>, subclasses: seq<string>): (seq<string>, seq<string>) {
    var afterFirst := if name == AristolocheneName then (TerpeneClassLabel, SesquiterpeneLabel) else (classes, subclasses);
    if GgppRule(name) then (PrenylClassLabel, GgppLabel) else afterFirst
  }

  /** The GGPP rule decides when both apply; a name neither rule names keeps both lists, and a
      name one of them names loses what it had. */
  lemma CuratedLabelsOutcome(name: string, classes: seq<string>, subclasses: seq<string>)
    ensures GgppRule(name) ==> CuratedLabels(name, classes, subclasses) == (PrenylClassLabel, GgppLabel)
    ensures !GgppRule(name) && name == AristolocheneName
            ==> CuratedLabels(name, classes, subclasses) == (TerpeneClassLabel, SesquiterpeneLabel)
    ensures !GgppRule(name) && name != AristolocheneName ==> CuratedLabels(name, classes, subclasses) == (classes, subclasses)
    ensures (GgppRule(name) || name == AristolocheneName)
            ==> forall c, s :: CuratedLabels(name, c, s) == CuratedLabels(name, classes, subclasses)
  {
  }

  /** Curating a curated record changes nothing. */
  lemma CuratedLabelsIdempotent(name: string, classes: seq<string>, subclasses: seq<string>)
    ensures var (c, s) := CuratedLabels(name, classes, subclasses);
            CuratedLabels(name, c, s) == (c, s)
  {
  }

  /** `curate_record`: overwrites both label lists when a rule names the protein; no other
      field changes. */
  method CurateRecord(record: InterproRecords.InterproRecord)
    modifies record
    ensures (record.enzymeClass, record.enzymeSubclass)
            == CuratedLabels(old(record.proteinName), old(record.enzymeClass), old(record.enzymeSubclass))
    ensures record.header == old(record.header) && record.sequence == old(record.sequence)
    ensures record.accession == old(record.accession) && record.reviewStatus == old(record.reviewStatus)
    ensures record.proteinName == old(record.proteinName) && record.taxid == old(record.taxid)
    ensures record.organismName == old(record.organismName) && record.organismDivision == old(record.organismDivision)
  {
    if record.proteinName == AristolocheneName {
      record.enzymeClass := TerpeneClassLabel;
      record.enzymeSubclass := SesquiterpeneLabel;
    }
    if GgppRule(record.proteinName) {
      record.enzymeClass := PrenylClassLabel;
      record.enzymeSubclass := GgppLabel;
    }
  }

  // ---------------------------------------------------------------- pipeline

  /** Both label lists after automatic labelling and curation: the curated lists when a rule
      names the protein, otherwise each automatic class and subclass exactly once. */
  ghost predicate LabelsAfterCuration(name: string, classes: seq<string>, subclasses: seq<string>) {
    if GgppRule(name) || name == AristolocheneName then (classes, subclasses) == CuratedLabels(name, [], [])
    else
      && Distinct(classes) && (forall l :: l in classes <==> l in InterproRecords.EnzymeClasses(InterproRecords.ClassifierTable, name))
      && Distinct(subclasses) && (forall l :: l in subclasses <==> l in InterproRecords.EnzymeSubclasses(InterproRecords.ClassifierTable, name))
  }

  /** The document `main` writes for a FASTA entry whose header has no problem. */
  ghost predicate Extracted(doc: InterproRecords.InterproDocument, header: string, sequence: string, taxonomy: int -> Taxon) {
    match Records.ParseInterproHeader(header)
    case Failure(_) => false
    case Success(h) =>
      var taxon := taxonomy(h.taxid);
      && doc.header == header && doc.sequence == sequence && doc.accession == h.accession
      && doc.reviewStatus == h.status && doc.proteinName == h.proteinName && doc.taxid == h.taxid
      && taxon.names != [] && doc.organismName == taxon.names[0]
      && doc.organismDivision == InterproRecords.Division(taxon.lineage)
      && LabelsAfterCuration(h.proteinName, doc.enzymeClass, doc.enzymeSubclass)
  }

  /** The labels a record holds after `assign_enzyme_labels` followed by `curate_record`. */
  lemma CurationOverridesLabels(name: string, classes: seq<string>, subclasses: seq<string>)
    requires Distinct(classes) && forall l :: l in classes <==> l in InterproRecords.EnzymeClasses(InterproRecords.ClassifierTable, name)
    requires Distinct(subclasses) && forall l :: l in subclasses <==> l in InterproRecords.EnzymeSubclasses(InterproRecords.ClassifierTable, name)
    ensures var (c, s) := CuratedLabels(name, classes, subclasses);
            LabelsAfterCuration(name, c, s)
  {
  }

  /** One iteration of `main`: construct, label (enzyme labels, then taxonomy), curate. */
  method ExtractRecord(header: string, sequence: string, taxonomy: int -> Taxon)
    returns (r: Result<InterproRecords.InterproRecord, ExtractError>)
    ensures Problem(header, taxonomy).Some? ==> r == Failure(Problem(header, taxonomy).value)
    ensures Problem(header, taxonomy).None? ==> r.Success? && fresh(r.value) && Extracted(r.value.Document(), header, sequence, taxonomy)
  {
    var made := InterproRecords.NewInterproRecord(header, sequence);
    if made.Failure? {
      return Failure(BadHeader(header, made.error));
    }
    var record := made.value;
    record.AssignEnzymeLabels();
    ghost var classes, subclasses := record.enzymeClass, record.enzymeSubclass;
    var taxon := taxonomy(record.taxid);
    if taxon.names == [] {
      return Failure(NoTaxonName(record.taxid));
    }
    record.AssignTaxonomicLabels(taxon.names[0], taxon.lineage);
    CurateRecord(record);
    CurationOverridesLabels(record.proteinName, classes, subclasses);
    r := Success(record);
  }

  lemma ExtractedSnoc(docs: seq<InterproRecords.InterproDocument>, entries: seq<(string, string)>, taxonomy: int -> Taxon,
                      doc: InterproRecords.InterproDocument)
    requires |docs| < |entries|
    requires forall k | 0 <= k < |docs| :: Extracted(docs[k], entries[k].0, entries[k].1, taxonomy)
    requires Extracted(doc, entries[|docs|].0, entries[|docs|].1, taxonomy)
    ensures forall k | 0 <= k < |docs| + 1 :: Extracted((docs + [doc])[k], entries[k].0, entries[k].1, taxonomy)
  {
  }

  /** Stopping at an entry with a problem after building the documents of all earlier
      entries reports the first problem of the list. */
  lemma FirstProblemAt(docs: seq<InterproRecords.InterproDocument>, entries: seq<(string, string)>, taxonomy: int -> Taxon,
                       e: ExtractError)
    requires |docs| < |entries|
    requires forall k | 0 <= k < |docs| :: Extracted(docs[k], entries[k].0, entries[k].1, taxonomy)
    requires Problem(entries[|docs|].0, taxonomy) == Some(e)
    ensures exists k | 0 <= k < |entries| :: Problem(entries[k].0, taxonomy) == Some(e)
                                          && forall j | 0 <= j < k :: Problem(entries[j].0, taxonomy).None?
  {
    assert forall j | 0 <= j < |docs| :: Problem(entries[j].0, taxonomy).None?;
  }

  /** `main` over the items of the FASTA dictionary: the documents of the records in entry
      order, or the error of the first entry whose header has a problem. */
  method ExtractRecords(entries: seq<(string, string)>, taxonomy: int -> Taxon)
    returns (r: Result<seq<InterproRecords.InterproDocument>, ExtractError>)
    ensures r.Success? ==> |r.value| == |entries|
                           && forall k | 0 <= k < |entries| :: Extracted(r.value[k], entries[k].0, entries[k].1, taxonomy)
    ensures r.Failure? ==> exists k | 0 <= k < |entries| :: Problem(entries[k].0, taxonomy) == Some(r.error)
                                                           && forall j | 0 <= j < k :: Problem(entries[j].0, taxonomy).None?
  {
    var docs: seq<InterproRecords.InterproDocument> := [];
    var i := 0;
    while i < |entries|
      invariant i <= |entries| && |docs| == i
      invariant forall k | 0 <= k < i :: Extracted(docs[k], entries[k].0, entries[k].1, taxonomy)
    {
      var (header, sequence) := entries[i];
      var made := ExtractRecord(header, sequence, taxonomy);
      if made.Failure? {
        FirstProblemAt(docs, entries, taxonomy, made.error);
        return Failure(made.error);
      }
      ExtractedSnoc(docs, entries, taxonomy, made.value.Document());
      docs := docs + [made.value.Document()];
      i := i + 1;
    }
    r := Success(docs);
  }

  /** `write_json`: each document paired with the file it is written to, in order. */
  method WriteJson(docs: seq<InterproRecords.InterproDocument>, jsonOut: string)
    returns (files: seq<(string, InterproRecords.InterproDocument)>)
    ensures |files| == |docs|
    ensures forall k | 0 <= k < |docs| :: files[k] == (DocumentPath(jsonOut, docs[k].accession), docs[k])
  {
    files := [];
    for i := 0 to |docs|
      invariant |files| == i
      invariant forall k | 0 <= k < i :: files[k] == (DocumentPath(jsonOut, docs[k].accession), docs[k])
    {
      files := files + [(jsonOut + "/" + docs[i].accession + ".json", docs[i])];
    }
  }
}
