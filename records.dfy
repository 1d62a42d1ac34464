/** `Records.py`: the protein record of the first classifier generation, its InterPro
    header parse, its taxonomic division and its enzyme-type labelling. */
module Records {
  import opened Wrappers
  import opened Text
  import opened Collections
  import opened Pattern
  import opened Families

  /** The terpene half of the classification table, in its declared order. */
  const TerpeneFamilies: seq<Family> := [
    Family("monoterpene", ["monoterpene", "iridoid", "methylisoborneol", "cineole"]),
    Family("sesquiterpene", ["sesquiterpene", "sesquiterpenoid", "trichodiene", "trichodience", "protoilludene",
      "aristolochene", "guaiadiene", "germacrene", "farnesene", "viridiflorene", "cuprenene", "muurolene",
      "longiborneol", "presilphiperfolanol", "eremophilene", "cadinene", "santalene", "isozizaene",
      "pentalenene", "pristinol", "isoafricanol", "muurolol", "cubebol", "caryolanol", "selinadiene",
      "linalool", "eudesmol", "amorphene", "corvol ether", "germacradienol", "caryophyllene", "avermitilol"]),
    Family("diterpene", ["diterpene", "variediene", "fusicoccadiene", "conidiogenone", "araneosene", "kaurene",
      "phomopsene", "dolastadiene", "aphidicolanol", "paxilline", "BcPAX1", "copalyl diphosphate",
      "gibberellin", "phyllocladanol", "labdatriene", "cyclooctatenol", "tsukubadiene", "spiroviolene",
      "pimaradiene", "terpentetriene"]),
    Family("sesterterpene", ["sesterterpene", "ophiobolin", "preasperterpenoid", "preaspterpenacid",
      "stellatatriene", "astellifadiene", "quiannulatene", "sesterbrasiliatriene", "sesterfisherol",
      "preterpestacin", "aspergildiene", "fusoxypene"]),
    Family("triterpene", ["triterpene", "macrophomene", "talaropentaene"]),
    Family("tetraterpene", ["tetraterpene", "lycopene"])
  ]

  /** The prenyltransferase half of the classification table. */
  const PrenylFamilies: seq<Family> := [
    Family("FPP", ["FPP", "farnesyl pyrophosphate", "farnesyl diphosphate", "dimethylallyltranstransferase",
      "ERG20", "geranyltranstransferase"]),
    Family("GGPP", ["GGPP", "geranyl geranyl pyrophosphate", "geranyl geranyl diphosphate", "BTS1",
      "farnesyltranstransferase"]),
    Family("diapophytoene", ["diapophytoene"]),
    Family("phytoene", ["phytoene"]),
    Family("presqualene PP", ["presqualene diphosphate"]),
    Family("hydroxysqualene", ["hydroxysqualene"]),
    Family("squalene", ["squalene", "ERG9"]),
    Family("HPP", ["HPP", "hexaprenyl pyrophosphate", "hexaprenyl diphosphate", "COQ1"])
  ]

  /** Organism category from the taxonomy lineage: the first membership test that holds,
      in the order Basidiomycota (5204), Ascomycota (4890), Bacteria (2). */
  function Division(lineage: seq<int>): (d: string)
    ensures d == "Basidiomycota" <==> 5204 in lineage
    ensures d == "Ascomycota" <==> 5204 !in lineage && 4890 in lineage
    ensures d == "Bacteria" <==> 5204 !in lineage && 4890 !in lineage && 2 in lineage
    ensures d == "Other" <==> 5204 !in lineage && 4890 !in lineage && 2 !in lineage
  {
    if 5204 in lineage then "Basidiomycota"
    else if 4890 in lineage then "Ascomycota"
    else if 2 in lineage then "Bacteria"
    else "Other"
  }

  /** The labels `assign_enzyme_type` records for a protein name, given the two halves of a
      classification table: the "<family> synthase" label of every family with a matching
      exemplar, or "unknown" when none matches. */
  function EnzymeTypes(terpenes: seq<Family>, prenyls: seq<Family>, proteinName: string): set<string> {
    var labels := FoundLabels(TerpeneRule, terpenes, proteinName) + FoundLabels(PrenylRule, prenyls, proteinName);
    if labels == {} then {"unknown"} else labels
  }

  /** What EnzymeTypes holds, stated without the recursion: a family label iff one of its
      exemplars matches, and "unknown" iff no exemplar of either half matches. */
  lemma EnzymeTypesIff(terpenes: seq<Family>, prenyls: seq<Family>, proteinName: string, l: string)
    ensures l in EnzymeTypes(terpenes, prenyls, proteinName) <==>
      (exists i | 0 <= i < |terpenes| :: AnyFound(TerpeneRule, terpenes[i].exemplars, proteinName) && l == Label(terpenes[i]))
      || (exists i | 0 <= i < |prenyls| :: AnyFound(PrenylRule, prenyls[i].exemplars, proteinName) && l == Label(prenyls[i]))
      || (l == "unknown"
          && (forall i | 0 <= i < |terpenes| :: !AnyFound(TerpeneRule, terpenes[i].exemplars, proteinName))
          && (forall i | 0 <= i < |prenyls| :: !AnyFound(PrenylRule, prenyls[i].exemplars, proteinName)))
  {
    var t := FoundLabels(TerpeneRule, terpenes, proteinName);
    var p := FoundLabels(PrenylRule, prenyls, proteinName);
    FoundLabelsIff(TerpeneRule, terpenes, proteinName, l);
    FoundLabelsIff(PrenylRule, prenyls, proteinName, l);
    UnknownIsNoLabel(TerpeneRule, terpenes, proteinName);
    UnknownIsNoLabel(PrenylRule, prenyls, proteinName);
    forall i | 0 <= i < |terpenes| && AnyFound(TerpeneRule, terpenes[i].exemplars, proteinName)
      ensures Label(terpenes[i]) in t
    {
      FoundLabelsIff(TerpeneRule, terpenes, proteinName, Label(terpenes[i]));
    }
    forall i | 0 <= i < |prenyls| && AnyFound(PrenylRule, prenyls[i].exemplars, proteinName)
      ensures Label(prenyls[i]) in p
    {
      FoundLabelsIff(PrenylRule, prenyls, proteinName, Label(prenyls[i]));
    }
    if t != {} {
      var x :| x in t;
      FoundLabelsIff(TerpeneRule, terpenes, proteinName, x);
    }
    if p != {} {
      var x :| x in p;
      FoundLabelsIff(PrenylRule, prenyls, proteinName, x);
    }
  }

  /** The labels are never empty, and "unknown" never appears beside a family label. */
  lemma EnzymeTypesUnknownAlone(terpenes: seq<Family>, prenyls: seq<Family>, proteinName: string)
    ensures EnzymeTypes(terpenes, prenyls, proteinName) != {}
    ensures "unknown" in EnzymeTypes(terpenes, prenyls, proteinName) ==> EnzymeTypes(terpenes, prenyls, proteinName) == {"unknown"}
  {
    UnknownIsNoLabel(TerpeneRule, terpenes, proteinName);
    UnknownIsNoLabel(PrenylRule, prenyls, proteinName);
  }

  /** Matching ignores letter case: names that lower-case alike get the same labels. */
  lemma EnzymeTypesIgnoreCase(terpenes: seq<Family>, prenyls: seq<Family>, a: string, b: string)
    requires LowerStr(a) == LowerStr(b)
    ensures EnzymeTypes(terpenes, prenyls, a) == EnzymeTypes(terpenes, prenyls, b)
  {
    FoundLabelsIgnoreCase(TerpeneRule, terpenes, a, b);
    FoundLabelsIgnoreCase(PrenylRule, prenyls, a, b);
  }

  /** The nested loops of `assign_enzyme_type` over one half of the table: every exemplar of
      every family is tried, and each match adds the family's label to the set. */
  method CollectLabels(rule: Rule, fams: seq<Family>, proteinName: string) returns (found: set<string>)
    ensures found == FoundLabels(rule, fams, proteinName)
  {
    found := {};
    for i := 0 to |fams|
      invariant found == FoundLabels(rule, fams[..i], proteinName)
    {
      var fam := fams[i];
      ghost var before := found;
      for j := 0 to |fam.exemplars|
        invariant found == before + (if AnyFound(rule, fam.exemplars[..j], proteinName) then {Label(fam)} else {})
      {
        AnyFoundStep(rule, fam.exemplars, j, proteinName);
        if Search(ExemplarTokens(rule, fam.exemplars[j]), proteinName) {
          found := found + {Label(fam)};
        }
      }
      assert fam.exemplars[..|fam.exemplars|] == fam.exemplars;
      FoundLabelsStep(rule, fams, i, proteinName);
    }
    assert fams[..|fams|] == fams;
  }

  /** The body of `assign_enzyme_type` for a given table: both halves are searched into one
      set, "unknown" is added when it stays empty, and the set is turned into a list. */
  method EnzymeTypeList(terpenes: seq<Family>, prenyls: seq<Family>, proteinName: string) returns (types: seq<string>)
    ensures Distinct(types)
    ensures forall l :: l in types <==> l in EnzymeTypes(terpenes, prenyls, proteinName)
  {
    var found := CollectLabels(TerpeneRule, terpenes, proteinName);
    var prenylLabels := CollectLabels(PrenylRule, prenyls, proteinName);
    found := found + prenylLabels;
    if found == {} {
      found := found + {"unknown"};
    }
    types := ListOfSet(found);
  }

  /** The fields of a record as `to_json` writes them (the JSON text itself is not modelled). */
  datatype ProteinDocument = ProteinDocument(database: string, header: string, accession: string, reviewed: bool,
    proteinName: string, taxid: int, organismName: string, organismCategory: string, enzymeType: seq<string>)

  /** A classified protein (`ProteinRecord`): identity fields set at construction, label fields
      filled in later by the `Assign` methods. */
  class ProteinRecord {
    var database: string
    var header: string
    var accession: string
    var reviewed: bool
    var proteinName: string
    var taxid: int
    var organismName: string
    var organismCategory: string
    var enzymeType: seq<string>

    /** The labels start out empty. */
    constructor (database: string, header: string, accession: string, reviewed: bool, proteinName: string, taxid: int)
      ensures this.database == database && this.header == header && this.accession == accession
      ensures this.reviewed == reviewed && this.proteinName == proteinName && this.taxid == taxid
      ensures organismName == "" && organismCategory == "" && enzymeType == []
    {
      this.database := database;
      this.header := header;
      this.accession := accession;
      this.reviewed := reviewed;
      this.proteinName := proteinName;
      this.taxid := taxid;
      organismName := "";
      organismCategory := "";
      enzymeType := [];
    }

    function Document(): ProteinDocument
      reads this
    {
      ProteinDocument(database, header, accession, reviewed, proteinName, taxid, organismName, organismCategory, enzymeType)
    }

    /** `assign_taxonomic_labels`, with the first taxonomic name found for the taxid and its
        lineage given as inputs. Only the two organism fields change. */
    method AssignTaxonomicLabels(firstName: string, lineage: seq<int>)
      modifies this
      ensures organismName == firstName && organismCategory == Division(lineage)
      ensures database == old(database) && header == old(header) && accession == old(accession)
      ensures reviewed == old(reviewed) && proteinName == old(proteinName) && taxid == old(taxid)
      ensures enzymeType == old(enzymeType)
    {
      organismName := firstName;
      if 5204 in lineage {
        organismCategory := "Basidiomycota";
      } else if 4890 in lineage {
        organismCategory := "Ascomycota";
      } else if 2 in lineage {
        organismCategory := "Bacteria";
      } else {
        organismCategory := "Other";
      }
    }

    /** `assign_enzyme_type` on a record whose label set is still the empty one the constructor
        made: the labels become a duplicate-free list holding exactly the EnzymeTypes of the
        protein name for this file's table.
        Only enzymeType changes. */
    method AssignEnzymeType()
      requires enzymeType == []
      modifies this
      ensures Distinct(enzymeType)
      ensures forall l :: l in enzymeType <==> l in EnzymeTypes(TerpeneFamilies, PrenylFamilies, proteinName)
      ensures database == old(database) && header == old(header) && accession == old(accession)
      ensures reviewed == old(reviewed) && proteinName == old(proteinName) && taxid == old(taxid)
      ensures organismName == old(organismName) && organismCategory == old(organismCategory)
    {
      enzymeType := EnzymeTypeList(TerpeneFamilies, PrenylFamilies, proteinName);
    }
  }

  // ---------------------------------------------------------------- InterPro header

  datatype HeaderError = MissingField | BadTaxid

  /** The four leading fields of an InterPro FASTA header. */
  datatype InterproHeader = InterproHeader(accession: string, status: string, proteinName: string, taxid: int)

  /** The header parse of `InterproRecord.__init__`: split on "|", fields 0 to 2 taken as they
      are, field 3 read as an integer after removing a leading "taxID:". Fewer than four fields
      is an index error, an unreadable taxid a value error. */
  function ParseInterproHeader(header: string): (r: Result<InterproHeader, HeaderError>)
    ensures r == Failure(MissingField) <==> |Split(header, "|")| < 4
    ensures r.Success? ==> r.value.accession == Split(header, "|")[0]
                           && r.value.proteinName == Split(header, "|")[2]
                           && r.value.status == Split(header, "|")[1]
  {
    var fields := Split(header, "|");
    if |fields| < 4 then Failure(MissingField)
    else
      match ParseInt(RemovePrefix(fields[3], "taxID:"))
      case None => Failure(BadTaxid)
      case Some(t) => Success(InterproHeader(fields[0], fields[1], fields[2], t))
  }

  /** An InterPro header written from its fields reads back as those fields. */
  lemma HeaderRoundTrip(accession: string, status: string, proteinName: string, taxid: nat)
    requires '|' !in accession && '|' !in status && '|' !in proteinName
    ensures ParseInterproHeader(Join([accession, status, proteinName, "taxID:" + NatToString(taxid)], "|"))
            == Success(InterproHeader(accession, status, proteinName, taxid))
  {
    var digits := NatToString(taxid);
    var last := "taxID:" + digits;
    assert '|' !in last by {
      assert forall i | 6 <= i < |last| :: last[i] == digits[i - 6];
    }
    SplitJoinChar([accession, status, proteinName, last], '|');
    assert RemovePrefix(last, "taxID:") == digits;
    ParseIntNatToString(taxid);
  }

  /** `InterproRecord(header)`: database "interpro", the header kept whole, fields parsed,
      reviewed when field 1 is exactly "reviewed". */
  method NewInterproRecord(header: string) returns (r: Result<ProteinRecord, HeaderError>)
    ensures ParseInterproHeader(header).Failure? ==> r == Failure(ParseInterproHeader(header).error)
    ensures r.Success? <==> ParseInterproHeader(header).Success?
    ensures r.Success? ==> fresh(r.value)
    ensures r.Success? ==>
      var h := ParseInterproHeader(header).value;
      r.value.database == "interpro" && r.value.header == header && r.value.accession == h.accession
      && r.value.reviewed == (h.status == "reviewed") && r.value.proteinName == h.proteinName && r.value.taxid == h.taxid
      && r.value.organismName == "" && r.value.organismCategory == "" && r.value.enzymeType == []
  {
    match ParseInterproHeader(header)
    case Failure(e) => r := Failure(e);
    case Success(h) =>
      var rec := new ProteinRecord("interpro", header, h.accession, h.status == "reviewed", h.proteinName, h.taxid);
      r := Success(rec);
  }
}
