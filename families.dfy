/** The enzyme-family tables of the record classifiers and what it means for a protein
    name to belong to a family: some exemplar's pattern is found in the name. */
module Families {
  import opened Text
  import opened Pattern
  import opened Collections

  /** One entry of a classification table: the family's label stem and its exemplar names. */
  datatype Family = Family(name: string, exemplars: seq<string>)

  /** Which builder turns an exemplar into a pattern: terpene exemplars get the space rule and
      the suffix rule, prenyltransferase exemplars the space rule only. */
  datatype Rule = TerpeneRule | PrenylRule

  function ExemplarTokens(rule: Rule, exemplar: string): seq<Token> {
    match rule
    case TerpeneRule => TerpeneTokens(exemplar)
    case PrenylRule => PrenylTokens(exemplar)
  }

  /** `re.search(pattern, protein_name, flags=re.IGNORECASE)` succeeds. */
  predicate Found(rule: Rule, exemplar: string, proteinName: string) {
    Search(ExemplarTokens(rule, exemplar), proteinName)
  }

  /** Some exemplar of the list is found in the name. */
  predicate AnyFound(rule: Rule, exemplars: seq<string>, proteinName: string) {
    exists k | 0 <= k < |exemplars| :: Found(rule, exemplars[k], proteinName)
  }

  /** The label a family contributes: "<family> synthase". */
  function Label(f: Family): string {
    f.name + " synthase"
  }

  /** Labels of the families of `fams` that have an exemplar found in the name, as a set. */
  function FoundLabels(rule: Rule, fams: seq<Family>, proteinName: string): set<string>
    decreases |fams|
  {
    if fams == [] then {}
    else
      var last := fams[|fams| - 1];
      FoundLabels(rule, fams[..|fams| - 1], proteinName)
        + (if AnyFound(rule, last.exemplars, proteinName) then {Label(last)} else {})
  }

  /** One more exemplar tried. */
  lemma AnyFoundStep(rule: Rule, exemplars: seq<string>, j: nat, proteinName: string)
    requires j < |exemplars|
    ensures AnyFound(rule, exemplars[..j + 1], proteinName)
            <==> AnyFound(rule, exemplars[..j], proteinName) || Found(rule, exemplars[j], proteinName)
  {
    ExistsPrefixStep(exemplars, j, (e: string) => Found(rule, e, proteinName));
  }

  /** One more family tried. */
  lemma FoundLabelsStep(rule: Rule, fams: seq<Family>, i: nat, proteinName: string)
    requires i < |fams|
    ensures FoundLabels(rule, fams[..i + 1], proteinName)
            == FoundLabels(rule, fams[..i], proteinName)
               + (if AnyFound(rule, fams[i].exemplars, proteinName) then {Label(fams[i])} else {})
  {
    assert fams[..i + 1][..i] == fams[..i];
  }

  /** A label is recorded iff some family carrying it has a matching exemplar:
      every matching family is recorded, not just the first. */
  lemma {:induction false} FoundLabelsIff(rule: Rule, fams: seq<Family>, proteinName: string, l: string)
    ensures l in FoundLabels(rule, fams, proteinName)
            <==> exists i | 0 <= i < |fams| :: AnyFound(rule, fams[i].exemplars, proteinName) && l == Label(fams[i])
    decreases |fams|
  {
    if fams != [] {
      var init := fams[..|fams| - 1];
      FoundLabelsIff(rule, init, proteinName, l);
      assert forall i | 0 <= i < |init| :: init[i] == fams[i];
    }
  }

  /** Nothing is recorded iff no family has a matching exemplar. */
  lemma FoundLabelsEmpty(rule: Rule, fams: seq<Family>, proteinName: string)
    ensures FoundLabels(rule, fams, proteinName) == {}
            <==> forall i | 0 <= i < |fams| :: !AnyFound(rule, fams[i].exemplars, proteinName)
  {
    var labels := FoundLabels(rule, fams, proteinName);
    if labels != {} {
      var x :| x in labels;
      FoundLabelsIff(rule, fams, proteinName, x);
    }
    forall i | 0 <= i < |fams| && AnyFound(rule, fams[i].exemplars, proteinName) ensures Label(fams[i]) in labels {
      FoundLabelsIff(rule, fams, proteinName, Label(fams[i]));
    }
  }

  /** No family label is the "unknown" sentinel: each ends in " synthase". */
  lemma UnknownIsNoLabel(rule: Rule, fams: seq<Family>, proteinName: string)
    ensures "unknown" !in FoundLabels(rule, fams, proteinName)
  {
    FoundLabelsIff(rule, fams, proteinName, "unknown");
    forall i | 0 <= i < |fams| ensures Label(fams[i]) != "unknown" {
      assert |Label(fams[i])| >= 9;
    }
  }

  /** Names that lower-case alike find the same exemplars. */
  lemma FoundIgnoresCase(rule: Rule, exemplar: string, a: string, b: string)
    requires LowerStr(a) == LowerStr(b)
    ensures Found(rule, exemplar, a) == Found(rule, exemplar, b)
  {
    SearchIgnoresCase(ExemplarTokens(rule, exemplar), a, b);
  }

  /** Names that lower-case alike get the same family labels. */
  lemma {:induction false} FoundLabelsIgnoreCase(rule: Rule, fams: seq<Family>, a: string, b: string)
    requires LowerStr(a) == LowerStr(b)
    ensures FoundLabels(rule, fams, a) == FoundLabels(rule, fams, b)
    decreases |fams|
  {
    if fams != [] {
      var last := fams[|fams| - 1];
      FoundLabelsIgnoreCase(rule, fams[..|fams| - 1], a, b);
      forall k | 0 <= k < |last.exemplars| ensures Found(rule, last.exemplars[k], a) == Found(rule, last.exemplars[k], b) {
        FoundIgnoresCase(rule, last.exemplars[k], a, b);
      }
    }
  }
}
