/** `InterproRecord.py`: the second classifier generation. A match now adds an enzyme class
    ("terpene synthase" or "prenyltransferase") and a subclass ("<family> synthase"); generic
    descriptors searched after a failed exemplar add the class alone. */
module InterproRecords {
  import opened Wrappers
  import opened Text
  import opened Pattern
  import opened Collections
  import opened Families
  import Records

  const TerpeneFamilies: seq<Family> := [
    Family("monoterpene", ["monoterpene", "iridoid"]),
    Family("sesquiterpene", ["sesquiterpene", "sesquiterpenoid", "trichodiene", "trichodience", "protoilludene",
      "aristolochene", "guaiadiene", "germacrene", "farnesene", "viridiflorene", "cuprenene", "muurolene",
      "longiborneol", "presilphiperfolanol", "eremophilene", "cadinene", "santalene", "isozizaene",
      "pentalenene", "pristinol"]),
    Family("diterpene", ["diterpene", "variediene", "fusicoccadiene", "conidiogenone", "araneosene", "kaurene",
      "phomopsene", "dolastadiene", "aphidicolanol", "paxilline", "BcPAX1", "copalyl diphosphate",
      "gibberellin", "phyllocladanol"]),
    Family("sesterterpene", ["sesterterpene", "ophiobolin", "preasperterpenoid", "preaspterpenacid",
      "stellatatriene", "astellifadiene", "quiannulatene", "sesterbrasiliatriene", "sesterfisherol",
      "preterpestacin", "aspergildiene", "fusoxypene"]),
    Family("triterpene", ["triterpene", "macrophomene", "talaropentaene"]),
    Family("tetraterpene", ["tetraterpene", "lycopene"])
  ]

  const PrenylFamilies: seq<Family> := [
    Family("FPP", ["FPP", "farnesyl pyrophosphate", "farnesyl diphosphate", "dimethylallyltranstransferase",
      "ERG20", "geranyltranstransferase"]),
    Family("GGPP", ["GGPP", "geranyl geranyl pyrophosphate", "geranyl geranyl diphosphate", "BTS1",
      "farnesyltranstransferase"]),
    Family("phytoene", ["phytoene"]),
    Family("squalene", ["squalene", "ERG9"]),
    Family("HPP", ["HPP", "hexaprenyl pyrophosphate", "hexaprenyl diphosphate", "COQ1"])
  ]

  /** Generic descriptors, searched as plain text. */
  const TerpeneGenerics: seq<string> := ["terpene", "terpenoid"]
  const PrenylGenerics: seq<string> := ["prenyl transferase", "polyprenyl", "polyprenyl diphosphate"]

  const TerpeneClass: string := "terpene synthase"
  const PrenylClass: string := "prenyltransferase"

  /** A classification table of this generation: families and generic descriptors per half. */
  datatype Table = Table(terpenes: seq<Family>, terpeneGenerics: seq<string>,
                         prenyls: seq<Family>, prenylGenerics: seq<string>)

  const ClassifierTable: Table := Table(TerpeneFamilies, TerpeneGenerics, PrenylFamilies, PrenylGenerics)

  /** Organism division: Basidiomycota (5204) before Ascomycota (4890); no Bacteria test. */
  function Division(lineage: seq<int>): (d: string)
    ensures d == "Basidiomycota" <==> 5204 in lineage
    ensures d == "Ascomycota" <==> 5204 !in lineage && 4890 in lineage
    ensures d == "Other" <==> 5204 !in lineage && 4890 !in lineage
  {
    if 5204 in lineage then "Basidiomycota" else if 4890 in lineage then "Ascomycota" else "Other"
  }

  /** Some generic descriptor is found in the name. */
  predicate GenericFound(generics: seq<string>, proteinName: string) {
    exists g | 0 <= g < |generics| :: Search(Parse(generics[g]), proteinName)
  }

  /** Trying one exemplar adds the class: it matches, or it fails and a generic descriptor matches. */
  predicate AddsClass(rule: Rule, exemplar: string, generics: seq<string>, proteinName: string) {
    Found(rule, exemplar, proteinName) || GenericFound(generics, proteinName)
  }

  predicate FamilyAddsClass(rule: Rule, exemplars: seq<string>, generics: seq<string>, proteinName: string) {
    exists k | 0 <= k < |exemplars| :: AddsClass(rule, exemplars[k], generics, proteinName)
  }

  /** The class set built by one half of `assign_enzyme_labels`, family by family. */
  function ClassLabels(rule: Rule, fams: seq<Family>, generics: seq<string>, className: string, proteinName: string): set<string>
    decreases |fams|
  {
    if fams == [] then {}
    else
      var last := fams[|fams| - 1];
      ClassLabels(rule, fams[..|fams| - 1], generics, className, proteinName)
        + (if FamilyAddsClass(rule, last.exemplars, generics, proteinName) then {className} else {})
  }

  /** Some exemplar of the half matches. */
  predicate AnyExemplarFound(rule: Rule, fams: seq<Family>, proteinName: string) {
    exists i | 0 <= i < |fams| :: AnyFound(rule, fams[i].exemplars, proteinName)
  }

  /** The half has at least one exemplar, so the generic search runs when none matches. */
  predicate HasExemplar(fams: seq<Family>) {
    exists i | 0 <= i < |fams| :: |fams[i].exemplars| > 0
  }

  lemma AnyExemplarFoundLast(rule: Rule, fams: seq<Family>, proteinName: string)
    requires fams != []
    ensures AnyExemplarFound(rule, fams, proteinName)
            <==> AnyExemplarFound(rule, fams[..|fams| - 1], proteinName) || AnyFound(rule, fams[|fams| - 1].exemplars, proteinName)
  {
    ExistsLast(fams, fams[..|fams| - 1], (f: Family) => AnyFound(rule, f.exemplars, proteinName));
  }

  lemma HasExemplarLast(fams: seq<Family>)
    requires fams != []
    ensures HasExemplar(fams) <==> HasExemplar(fams[..|fams| - 1]) || |fams[|fams| - 1].exemplars| > 0
  {
    ExistsLast(fams, fams[..|fams| - 1], (f: Family) => |f.exemplars| > 0);
  }

  lemma FamilyAddsClassIff(rule: Rule, exemplars: seq<string>, generics: seq<string>, proteinName: string)
    ensures FamilyAddsClass(rule, exemplars, generics, proteinName)
            <==> AnyFound(rule, exemplars, proteinName) || (GenericFound(generics, proteinName) && |exemplars| > 0)
  {
    if GenericFound(generics, proteinName) && |exemplars| > 0 {
      assert AddsClass(rule, exemplars[0], generics, proteinName);
    }
  }

  /** A half adds its class iff one of its exemplars matches, or it has an exemplar and a
      generic descriptor matches; it adds nothing else. */
  lemma {:induction false} ClassLabelsIff(rule: Rule, fams: seq<Family>, generics: seq<string>, className: string, proteinName: string)
    ensures ClassLabels(rule, fams, generics, className, proteinName) <= {className}
    ensures className in ClassLabels(rule, fams, generics, className, proteinName)
            <==> AnyExemplarFound(rule, fams, proteinName) || (GenericFound(generics, proteinName) && HasExemplar(fams))
    decreases |fams|
  {
    if fams != [] {
      var last := fams[|fams| - 1];
      ClassLabelsIff(rule, fams[..|fams| - 1], generics, className, proteinName);
      AnyExemplarFoundLast(rule, fams, proteinName);
      HasExemplarLast(fams);
      FamilyAddsClassIff(rule, last.exemplars, generics, proteinName);
    }
  }

  /** The final enzyme_class set: the classes added, or "unknown" when none was. */
  function EnzymeClasses(t: Table, proteinName: string): set<string> {
    var c := ClassLabels(TerpeneRule, t.terpenes, t.terpeneGenerics, TerpeneClass, proteinName)
             + ClassLabels(PrenylRule, t.prenyls, t.prenylGenerics, PrenylClass, proteinName);
    if c == {} then {"unknown"} else c
  }

  /** The final enzyme_subclass set: the family labels found, or "unknown" when none was. */
  function EnzymeSubclasses(t: Table, proteinName: string): set<string> {
    var s := FoundLabels(TerpeneRule, t.terpenes, proteinName) + FoundLabels(PrenylRule, t.prenyls, proteinName);
    if s == {} then {"unknown"} else s
  }

  /** enzyme_class is non-empty, holds only the two classes and "unknown", and "unknown" only alone. */
  lemma EnzymeClassesShape(t: Table, proteinName: string)
    ensures EnzymeClasses(t, proteinName) != {}
    ensures EnzymeClasses(t, proteinName) <= {TerpeneClass, PrenylClass, "unknown"}
    ensures "unknown" in EnzymeClasses(t, proteinName) ==> EnzymeClasses(t, proteinName) == {"unknown"}
  {
    ClassLabelsIff(TerpeneRule, t.terpenes, t.terpeneGenerics, TerpeneClass, proteinName);
    ClassLabelsIff(PrenylRule, t.prenyls, t.prenylGenerics, PrenylClass, proteinName);
  }

  /** A family subclass brings its class: a matching terpene exemplar puts "terpene synthase"
      in enzyme_class, a matching prenyltransferase exemplar "prenyltransferase". */
  lemma SubclassImpliesClass(t: Table, proteinName: string)
    ensures AnyExemplarFound(TerpeneRule, t.terpenes, proteinName) ==> TerpeneClass in EnzymeClasses(t, proteinName)
    ensures AnyExemplarFound(PrenylRule, t.prenyls, proteinName) ==> PrenylClass in EnzymeClasses(t, proteinName)
  {
    ClassLabelsIff(TerpeneRule, t.terpenes, t.terpeneGenerics, TerpeneClass, proteinName);
    ClassLabelsIff(PrenylRule, t.prenyls, t.prenylGenerics, PrenylClass, proteinName);
  }

  /** enzyme_subclass is "unknown" alone iff no specific exemplar matched. */
  lemma EnzymeSubclassesUnknown(t: Table, proteinName: string)
    ensures EnzymeSubclasses(t, proteinName) == {"unknown"}
            <==> !AnyExemplarFound(TerpeneRule, t.terpenes, proteinName) && !AnyExemplarFound(PrenylRule, t.prenyls, proteinName)
  {
    UnknownIsNoLabel(TerpeneRule, t.terpenes, proteinName);
    UnknownIsNoLabel(PrenylRule, t.prenyls, proteinName);
    FoundLabelsEmpty(TerpeneRule, t.terpenes, proteinName);
    FoundLabelsEmpty(PrenylRule, t.prenyls, proteinName);
  }

  /** Otherwise enzyme_subclass holds exactly the labels of the matching families. */
  lemma EnzymeSubclassesMember(t: Table, proteinName: string, l: string)
    ensures l in EnzymeSubclasses(t, proteinName) && l != "unknown" <==>
      (exists i | 0 <= i < |t.terpenes| :: AnyFound(TerpeneRule, t.terpenes[i].exemplars, proteinName) && l == Label(t.terpenes[i]))
      || (exists i | 0 <= i < |t.prenyls| :: AnyFound(PrenylRule, t.prenyls[i].exemplars, proteinName) && l == Label(t.prenyls[i]))
  {
    UnknownIsNoLabel(TerpeneRule, t.terpenes, proteinName);
    UnknownIsNoLabel(PrenylRule, t.prenyls, proteinName);
    FoundLabelsIff(TerpeneRule, t.terpenes, proteinName, l);
    FoundLabelsIff(PrenylRule, t.prenyls, proteinName, l);
  }

  /** Generic descriptors add the class only: with no specific match, a generic terpene
      descriptor yields class "terpene synthase" and subclass "unknown". */
  lemma GenericAddsClassOnly(t: Table, proteinName: string)
    requires !AnyExemplarFound(TerpeneRule, t.terpenes, proteinName) && !AnyExemplarFound(PrenylRule, t.prenyls, proteinName)
    requires GenericFound(t.terpeneGenerics, proteinName) && HasExemplar(t.terpenes)
    ensures TerpeneClass in EnzymeClasses(t, proteinName)
    ensures EnzymeSubclasses(t, proteinName) == {"unknown"}
  {
    ClassLabelsIff(TerpeneRule, t.terpenes, t.terpeneGenerics, TerpeneClass, proteinName);
    EnzymeSubclassesUnknown(t, proteinName);
  }

  /** Neither label set depends on letter case. */
  lemma {:induction false} ClassLabelsIgnoreCase(rule: Rule, fams: seq<Family>, generics: seq<string>, className: string, a: string, b: string)
    requires LowerStr(a) == LowerStr(b)
    ensures ClassLabels(rule, fams, generics, className, a) == ClassLabels(rule, fams, generics, className, b)
    decreases |fams|
  {
    if fams != [] {
      var last := fams[|fams| - 1];
      ClassLabelsIgnoreCase(rule, fams[..|fams| - 1], generics, className, a, b);
      forall k | 0 <= k < |last.exemplars| ensures Found(rule, last.exemplars[k], a) == Found(rule, last.exemplars[k], b) {
        FoundIgnoresCase(rule, last.exemplars[k], a, b);
      }
      forall g | 0 <= g < |generics| ensures Search(Parse(generics[g]), a) == Search(Parse(generics[g]), b) {
        SearchIgnoresCase(Parse(generics[g]), a, b);
      }
    }
  }

  lemma LabelsIgnoreCase(t: Table, a: string, b: string)
    requires LowerStr(a) == LowerStr(b)
    ensures EnzymeClasses(t, a) == EnzymeClasses(t, b)
    ensures EnzymeSubclasses(t, a) == EnzymeSubclasses(t, b)
  {
    ClassLabelsIgnoreCase(TerpeneRule, t.terpenes, t.terpeneGenerics, TerpeneClass, a, b);
    ClassLabelsIgnoreCase(PrenylRule, t.prenyls, t.prenylGenerics, PrenylClass, a, b);
    FoundLabelsIgnoreCase(TerpeneRule, t.terpenes, a, b);
    FoundLabelsIgnoreCase(PrenylRule, t.prenyls, a, b);
  }

  /** The generic-descriptor loop: one search per descriptor. */
  method SearchGenerics(generics: seq<string>, proteinName: string) returns (found: bool)
    ensures found == GenericFound(generics, proteinName)
  {
    found := false;
    for g := 0 to |generics|
      invariant found <==> exists h | 0 <= h < g :: Search(Parse(generics[h]), proteinName)
    {
      if Search(Parse(generics[g]), proteinName) {
        found := true;
      }
    }
  }

  /** One half of `assign_enzyme_labels`: every exemplar of every family is tried; a match adds
      the class and the family's label, a failure runs the generic search, whose match adds
      the class. */
  method CollectHalf(rule: Rule, fams: seq<Family>, generics: seq<string>, className: string, proteinName: string)
    returns (classes: set<string>, subclasses: set<string>)
    ensures classes == ClassLabels(rule, fams, generics, className, proteinName)
    ensures subclasses == FoundLabels(rule, fams, proteinName)
  {
    classes, subclasses := {}, {};
    for i := 0 to |fams|
      invariant classes == ClassLabels(rule, fams[..i], generics, className, proteinName)
      invariant subclasses == FoundLabels(rule, fams[..i], proteinName)
    {
      var fam := fams[i];
      ghost var classesBefore, subclassesBefore := classes, subclasses;
      for j := 0 to |fam.exemplars|
        invariant classes == classesBefore
          + (if FamilyAddsClass(rule, fam.exemplars[..j], generics, proteinName) then {className} else {})
        invariant subclasses == subclassesBefore
          + (if AnyFound(rule, fam.exemplars[..j], proteinName) then {Label(fam)} else {})
      {
        AnyFoundStep(rule, fam.exemplars, j, proteinName);
        AddsClassStep(rule, fam.exemplars, generics, j, proteinName);
        if Search(ExemplarTokens(rule, fam.exemplars[j]), proteinName) {
          classes := classes + {className};
          subclasses := subclasses + {Label(fam)};
        } else {
          var generic := SearchGenerics(generics, proteinName);
          if generic {
            classes := classes + {className};
          }
        }
      }
      assert fam.exemplars[..|fam.exemplars|] == fam.exemplars;
      FoundLabelsStep(rule, fams, i, proteinName);
      assert fams[..i + 1][..i] == fams[..i];
    }
    assert fams[..|fams|] == fams;
  }

  lemma AddsClassStep(rule: Rule, exemplars: seq<string>, generics: seq<string>, j: nat, proteinName: string)
    requires j < |exemplars|
    ensures FamilyAddsClass(rule, exemplars[..j + 1], generics, proteinName)
            <==> FamilyAddsClass(rule, exemplars[..j], generics, proteinName) || AddsClass(rule, exemplars[j], generics, proteinName)
  {
    ExistsPrefixStep(exemplars, j, (e: string) => AddsClass(rule, e, generics, proteinName));
  }

  /** The body of `assign_enzyme_labels` for a given table. */
  method EnzymeLabelLists(t: Table, proteinName: string) returns (classes: seq<string>, subclasses: seq<string>)
    ensures Distinct(classes) && forall l :: l in classes <==> l in EnzymeClasses(t, proteinName)
    ensures Distinct(subclasses) && forall l :: l in subclasses <==> l in EnzymeSubclasses(t, proteinName)
  {
    var c1, s1 := CollectHalf(TerpeneRule, t.terpenes, t.terpeneGenerics, TerpeneClass, proteinName);
    var c2, s2 := CollectHalf(PrenylRule, t.prenyls, t.prenylGenerics, PrenylClass, proteinName);
    var classSet, subclassSet := c1 + c2, s1 + s2;
    if classSet == {} {
      classSet := classSet + {"unknown"};
    }
    if subclassSet == {} {
      subclassSet := subclassSet + {"unknown"};
    }
    classes := ListOfSet(classSet);
    subclasses := ListOfSet(subclassSet);
  }

  /** The fields of a record as `to_json` writes them (the JSON text itself is not modelled). */
  datatype InterproDocument = InterproDocument(header: string, sequence: string, accession: string,
    reviewStatus: string, proteinName: string, taxid: int, organismName: string, organismDivision: string,
    enzymeClass: seq<string>, enzymeSubclass: seq<string>)

  /** A record of this generation: header fields, the sequence, and label fields. */
  class InterproRecord {
    var header: string
    var sequence: string
    var accession: string
    var reviewStatus: string
    var proteinName: string
    var taxid: int
    var organismName: string
    var organismDivision: string
    var enzymeClass: seq<string>
    var enzymeSubclass: seq<string>

    constructor (header: string, sequence: string, h: Records.InterproHeader)
      ensures this.header == header && this.sequence == sequence
      ensures accession == h.accession && reviewStatus == h.status && proteinName == h.proteinName && taxid == h.taxid
      ensures organismName == "" && organismDivision == "" && enzymeClass == [] && enzymeSubclass == []
    {
      this.header := header;
      this.sequence := sequence;
      accession := h.accession;
      reviewStatus := h.status;
      proteinName := h.proteinName;
      taxid := h.taxid;
      organismName := "";
      organismDivision := "";
      enzymeClass := [];
      enzymeSubclass := [];
    }

    function Document(): InterproDocument
      reads this
    {
      InterproDocument(header, sequence, accession, reviewStatus, proteinName, taxid, organismName, organismDivision,
                       enzymeClass, enzymeSubclass)
    }

    /** `assign_taxonomic_labels` with the taxonomy lookup's results as inputs. */
    method AssignTaxonomicLabels(firstName: string, lineage: seq<int>)
      modifies this
      ensures organismName == firstName && organismDivision == Division(lineage)
      ensures header == old(header) && sequence == old(sequence) && accession == old(accession)
      ensures reviewStatus == old(reviewStatus) && proteinName == old(proteinName) && taxid == old(taxid)
      ensures enzymeClass == old(enzymeClass) && enzymeSubclass == old(enzymeSubclass)
    {
      organismName := firstName;
      if 5204 in lineage {
        organismDivision := "Basidiomycota";
      } else if 4890 in lineage {
        organismDivision := "Ascomycota";
      } else {
        organismDivision := "Other";
      }
    }

    /** `assign_enzyme_labels` on a freshly constructed record (its label sets still empty). */
    method AssignEnzymeLabels()
      requires enzymeClass == [] && enzymeSubclass == []
      modifies this
      ensures Distinct(enzymeClass) && forall l :: l in enzymeClass <==> l in EnzymeClasses(ClassifierTable, proteinName)
      ensures Distinct(enzymeSubclass) && forall l :: l in enzymeSubclass <==> l in EnzymeSubclasses(ClassifierTable, proteinName)
      ensures header == old(header) && sequence == old(sequence) && accession == old(accession)
      ensures reviewStatus == old(reviewStatus) && proteinName == old(proteinName) && taxid == old(taxid)
      ensures organismName == old(organismName) && organismDivision == old(organismDivision)
    {
      enzymeClass, enzymeSubclass := EnzymeLabelLists(ClassifierTable, proteinName);
    }
  }

  /** `InterproRecord(header, seq)`: the header parse of the first generation, keeping the
      review field as text. */
  method NewInterproRecord(header: string, sequence: string) returns (r: Result<InterproRecord, Records.HeaderError>)
    ensures Records.ParseInterproHeader(header).Failure? ==> r == Failure(Records.ParseInterproHeader(header).error)
    ensures r.Success? <==> Records.ParseInterproHeader(header).Success?
    ensures r.Success? ==> fresh(r.value)
    ensures r.Success? ==>
      var h := Records.ParseInterproHeader(header).value;
      r.value.header == header && r.value.sequence == sequence && r.value.accession == h.accession
      && r.value.reviewStatus == h.status && r.value.proteinName == h.proteinName && r.value.taxid == h.taxid
      && r.value.enzymeClass == [] && r.value.enzymeSubclass == []
  {
    match Records.ParseInterproHeader(header)
    case Failure(e) => r := Failure(e);
    case Success(h) =>
      var rec := new InterproRecord(header, sequence, h);
      r := Success(rec);
  }
}
