/** `extract_metadata_InterPro.py`: one first-generation record per FASTA header, labelled
    automatically, corrected by two manual curation rules, and written to one JSON document
    per accession. */
module ExtractMetadataInterpro {
  import opened Wrappers
  import opened Text
  import opened Collections
  import opened JsonPaths
  import Records

  const AristolocheneName: string := "Aristolochene_synthase_in_complex_with_12,13_Difluorofarnesyl_diphosphate"

  /** The two protein names the GGPP rule lists by their exact text. */
  const GgppNames: seq<string> := [
    "Geranylgeranyl_pyrophosphate_synthetase,_putative_[includes:_dimethylallyltranstransferase_(Ec_2.5.1.1)_geranyltranstransferase_(Ec_2.5.1.10)_farnesyltranstransferas_(Ec_2.5.1.29)]",
    "Geranylgeranyl_pyrophosphate_synthase_(Fusicoccadiene_synthase)"
  ]

  const SesquiterpeneLabel: seq<string> := ["sesquiterpene synthase"]
  const GgppLabel: seq<string> := ["GGPP synthase"]

  /** The first rule: a cyclizing farnesyl-diphosphate name (any case), or the Aristolochene
      complex by its exact name. */
  predicate SesquiterpeneRule(name: string) {
    Contains(LowerStr(name), "farnesyl_diphosphate_cyclizing") || name == AristolocheneName
  }

  /** The second rule: a gibberellin-cluster GGPP synthase (any case), or one of the two
      listed names. Shared with the second-generation curation. */
  predicate GgppRule(name: string) {
    Contains(LowerStr(name), "gibberellin_cluster-ggpp-synthase") || name in GgppNames
  }

  /** The enzyme_type `curate_record` leaves: the two rules applied in turn to the labels
      the record had. */
  function Curated(name: string, types: seq<string>): seq<string> {
    var afterFirst := if SesquiterpeneRule(name) then SesquiterpeneLabel else types;
    if GgppRule(name) then GgppLabel else afterFirst
  }

  /** Both rules may apply; the GGPP rule, applied second, decides. A name neither rule
      names keeps its labels, and a name one of them names loses whatever it had. */
  lemma CuratedOutcome(name: string, types: seq<string>)
    ensures GgppRule(name) ==> Curated(name, types) == GgppLabel
    ensures !GgppRule(name) && SesquiterpeneRule(name) ==> Curated(name, types) == SesquiterpeneLabel
    ensures !GgppRule(name) && !SesquiterpeneRule(name) ==> Curated(name, types) == types
    ensures (GgppRule(name) || SesquiterpeneRule(name)) ==> forall other :: Curated(name, other) == Curated(name, types)
  {
  }

  /** Curating a curated record changes nothing. */
  lemma CuratedIdempotent(name: string, types: seq<string>)
    ensures Curated(name, Curated(name, types)) == Curated(name, types)
  {
  }

  /** `curate_record`: overwrites enzyme_type when a rule names the protein; no other field
      changes. */
  method CurateRecord(record: Records.ProteinRecord)
    modifies record
    ensures record.enzymeType == Curated(old(record.proteinName), old(record.enzymeType))
    ensures record.database == old(record.database) && record.header == old(record.header)
    ensures record.accession == old(record.accession) && record.reviewed == old(record.reviewed)
    ensures record.proteinName == old(record.proteinName) && record.taxid == old(record.taxid)
    ensures record.organismName == old(record.organismName) && record.organismCategory == old(record.organismCategory)
  {
    if SesquiterpeneRule(record.proteinName) {
      record.enzymeType := SesquiterpeneLabel;
    }
    if GgppRule(record.proteinName) {
      record.enzymeType := GgppLabel;
    }
  }

  // ---------------------------------------------------------------- pipeline

  /** What the taxonomy database answers for a taxid: its names (the script takes the first)
      and its lineage. */
  datatype Taxon = Taxon(names: seq<string>, lineage: seq<int>)

  datatype ExtractError = BadHeader(header: string, reason: Records.HeaderError) | NoTaxonName(taxid: int)

  /** Why a header cannot become a record: its fields do not parse, or the taxonomy has no
      name for its taxid (an index error in the script). */
  function Problem(header: string, taxonomy: int -> Taxon): Option<ExtractError> {
    match Records.ParseInterproHeader(header)
    case Failure(e) => Some(BadHeader(header, e))
    case Success(h) => if taxonomy(h.taxid).names == [] then Some(NoTaxonName(h.taxid)) else None
  }

  /** The labels of a record after automatic labelling and curation: the curated labels when
      a rule names the protein, otherwise each automatic label exactly once. */
  ghost predicate LabelledAndCurated(name: string, types: seq<string>) {
    if GgppRule(name) || SesquiterpeneRule(name) then types == Curated(name, [])
    else Distinct(types) && forall l :: l in types <==> l in Records.EnzymeTypes(Records.TerpeneFamilies, Records.PrenylFamilies, name)
  }

  /** The document `main` writes for a header that has no problem. */
  ghost predicate Extracted(doc: Records.ProteinDocument, header: string, taxonomy: int -> Taxon) {
    match Records.ParseInterproHeader(header)
    case Failure(_) => false
    case Success(h) =>
      var taxon := taxonomy(h.taxid);
      && doc.database == "interpro" && doc.header == header && doc.accession == h.accession
      && doc.reviewed == (h.status == "reviewed") && doc.proteinName == h.proteinName && doc.taxid == h.taxid
      && taxon.names != [] && doc.organismName == taxon.names[0]
      && doc.organismCategory == Records.Division(taxon.lineage)
      && LabelledAndCurated(h.proteinName, doc.enzymeType)
  }

  /** The labels a record holds after `assign_enzyme_type` followed by `curate_record`. */
  lemma CurationOverridesLabels(name: string, auto: seq<string>)
    requires Distinct(auto)
    requires forall l :: l in auto <==> l in Records.EnzymeTypes(Records.TerpeneFamilies, Records.PrenylFamilies, name)
    ensures LabelledAndCurated(name, Curated(name, auto))
  {
  }

  /** One iteration of `main`: construct, label (enzyme types, then taxonomy), curate. */
  method ExtractRecord(header: string, taxonomy: int -> Taxon) returns (r: Result<Records.ProteinRecord, ExtractError>)
    ensures Problem(header, taxonomy).Some? ==> r == Failure(Problem(header, taxonomy).value)
    ensures Problem(header, taxonomy).None? ==> r.Success? && fresh(r.value) && Extracted(r.value.Document(), header, taxonomy)
  {
    var made := Records.NewInterproRecord(header);
    if made.Failure? {
      return Failure(BadHeader(header, made.error));
    }
    var record := made.value;
    record.AssignEnzymeType();
    ghost var auto := record.enzymeType;
    var taxon := taxonomy(record.taxid);
    if taxon.names == [] {
      return Failure(NoTaxonName(record.taxid));
    }
    record.AssignTaxonomicLabels(taxon.names[0], taxon.lineage);
    CurateRecord(record);
    CurationOverridesLabels(record.proteinName, auto);
    r := Success(record);
  }

  /** Stopping at a header with a problem after building the documents of all earlier
      headers reports the first problem of the list. */
  lemma FirstProblemAt(docs: seq<Records.ProteinDocument>, headers: seq<string>, taxonomy: int -> Taxon, e: ExtractError)
    requires |docs| < |headers|
    requires forall k | 0 <= k < |docs| :: Extracted(docs[k], headers[k], taxonomy)
    requires Problem(headers[|docs|], taxonomy) == Some(e)
    ensures exists k | 0 <= k < |headers| :: Problem(headers[k], taxonomy) == Some(e)
                                          && forall j | 0 <= j < k :: Problem(headers[j], taxonomy).None?
  {
    assert forall j | 0 <= j < |docs| :: Problem(headers[j], taxonomy).None?;
  }

  lemma ExtractedSnoc(docs: seq<Records.ProteinDocument>, headers: seq<string>, taxonomy: int -> Taxon, doc: Records.ProteinDocument)
    requires |docs| < |headers|
    requires forall k | 0 <= k < |docs| :: Extracted(docs[k], headers[k], taxonomy)
    requires Extracted(doc, headers[|docs|], taxonomy)
    ensures forall k | 0 <= k < |docs| + 1 :: Extracted((docs + [doc])[k], headers[k], taxonomy)
  {
  }

  /** `main` over the keys of the FASTA dictionary: the documents of the records in key
      order, or the error of the first header that has a problem. */
  method ExtractRecords(headers: seq<string>, taxonomy: int -> Taxon) returns (r: Result<seq<Records.ProteinDocument>, ExtractError>)
    ensures r.Success? ==> |r.value| == |headers| && forall k | 0 <= k < |headers| :: Extracted(r.value[k], headers[k], taxonomy)
    ensures r.Failure? ==> exists k | 0 <= k < |headers| :: Problem(headers[k], taxonomy) == Some(r.error)
                                                           && forall j | 0 <= j < k :: Problem(headers[j], taxonomy).None?
  {
    var docs: seq<Records.ProteinDocument> := [];
    var i := 0;
    while i < |headers|
      invariant i <= |headers| && |docs| == i
      invariant forall k | 0 <= k < i :: Extracted(docs[k], headers[k], taxonomy)
    {
      var made := ExtractRecord(headers[i], taxonomy);
      if made.Failure? {
        FirstProblemAt(docs, headers, taxonomy, made.error);
        return Failure(made.error);
      }
      ExtractedSnoc(docs, headers, taxonomy, made.value.Document());
      docs := docs + [made.value.Document()];
      i := i + 1;
    }
    r := Success(docs);
  }

  /** `write_json`: each document paired with the file it is written to, in order. */
  method WriteJson(docs: seq<Records.ProteinDocument>, jsonOut: string) returns (files: seq<(string, Records.ProteinDocument)>)
    ensures |files| == |docs|
    ensures forall k | 0 <= k < |docs| :: files[k] == (DocumentPath(jsonOut, docs[k].accession), docs[k])
  {
    files := [];
    for i := 0 to |docs|
      invariant |files| == i
      invariant forall k | 0 <= k < i :: files[k] == (DocumentPath(jsonOut, docs[k].accession), docs[k])
    {
      files := files + [(jsonOut + "/" + docs[i].accession + ".json", docs[i])];
    }
  }
}
