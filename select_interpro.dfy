/** `select_interpro_sequences.py`: the third classifier generation. Query lists are rewritten
    into pattern text in place at start-up; records append one class and one subclass entry per
    matching query; records are then deduplicated by sequence, summarised and selected by
    attribute. */
module SelectInterpro {
  import opened Wrappers
  import opened Text
  import opened Pattern
  import opened Collections
  import opened Counting
  import InterproRecords

  // ---------------------------------------------------------------- query lists

  const Monoterpene: seq<string> := ["monoterpene", "iridoid"]
  const Sesquiterpene: seq<string> := ["sesquiterpene", "sesquiterpenoid", "trichodiene", "trichodience",
    "protoilludene", "aristolochene", "guaiadiene", "germacrene", "farnesene", "viridiflorene", "cuprenene",
    "muurolene", "longiborneol", "presilphiperfolanol", "eremophilene", "cadinene", "santalene", "isozizaene",
    "pentalenene", "pristinol"]
  const Diterpene: seq<string> := ["diterpene", "variediene", "fusicoccadiene", "conidiogenone", "araneosene",
    "kaurene", "phomopsene", "dolastadiene", "aphidicolanol", "paxilline", "BcPAX1", "copalyl diphosphate",
    "gibberellin", "phyllocladanol"]
  const Sesterterpene: seq<string> := ["sesterterpene", "ophiobolin", "preasperterpenoid", "preaspterpenacid",
    "stellatatriene", "astellifadiene", "quiannulatene", "sesterbrasiliatriene", "sesterfisherol",
    "preterpestacin", "aspergildiene", "fusoxypene"]
  const Triterpene: seq<string> := ["triterpene", "macrophomene", "talaropentaene"]
  const Tetraterpene: seq<string> := ["tetraterpene", "lycopene"]
  const FPP: seq<string> := ["FPP", "farnesyl pyrophosphate", "farnesyl diphosphate", "dimethylallyltranstransferase",
    "ERG20", "geranyltranstransferase"]
  const GGPP: seq<string> := ["GGPP", "geranyl geranyl pyrophosphate", "geranyl geranyl diphosphate", "BTS1",
    "farnesyltranstransferase"]
  const Phytoene: seq<string> := ["phytoene"]
  const Squalene: seq<string> := ["squalene", "ERG9"]
  const HPP: seq<string> := ["HPP", "hexaprenyl pyrophosphate", "hexaprenyl diphosphate", "COQ1"]
  const GenericPrenyltransferase: seq<string> := ["prenyl transferase", "polyprenyl", "polyprenyl diphosphate"]
  const GenericTerpene: seq<string> := ["terpene", "terpenoid"]

  /** `re.sub(suffix + "$", "(-.*-)?" + suffix, query)`: `$` matches at the very end and just
      before a final newline, so at most one occurrence is rewritten. */
  function AnchoredInsert(query: string, suffix: string): (r: string)
    ensures EndsWith(query, suffix) ==> r == query[..|query| - |suffix|] + LocantText + suffix
    ensures !EndsWith(query, suffix) && !EndsWith(query, suffix + "\n") ==> r == query
  {
    if EndsWith(query, suffix) then query[..|query| - |suffix|] + LocantText + suffix
    else if EndsWith(query, suffix + "\n") then query[..|query| - |suffix| - 1] + LocantText + suffix + "\n"
    else query
  }

  /** The suffix rule of this script: only the first of "diene", "ene", "ol" that occurs
      ANYWHERE in the query is considered, and the group is inserted only at the end. */
  function SuffixRegex(query: string): string {
    if Contains(query, "diene") then AnchoredInsert(query, "diene")
    else if Contains(query, "ene") then AnchoredInsert(query, "ene")
    else if Contains(query, "ol") then AnchoredInsert(query, "ol")
    else query
  }

  /** Pattern text of the query at position `i` of its list: the head of a list is not a
      compound name and gets only the space rule. */
  function QueryRegex(i: nat, query: string): string {
    ReplaceAll(if i != 0 then SuffixRegex(query) else query, " ", SpaceSepText)
  }

  /** A converted list. */
  function Converted(queries: seq<string>): (r: seq<string>)
    ensures |r| == |queries| && forall i :: 0 <= i < |queries| ==> r[i] == QueryRegex(i, queries[i])
  {
    MapIndexed(queries, QueryRegex)
  }

  /** The head of a list keeps its letters: only spaces change. */
  lemma HeadOnlySpaces(query: string)
    requires ' ' !in query
    ensures QueryRegex(0, query) == query
  {
    NotContainsChar(query, ' ');
  }

  /** Unlike the record classifiers, a "diene" name gets a single locant group, before "diene". */
  lemma DieneSingleGroup(stem: string)
    requires ' ' !in stem && '\n' !in stem
    ensures QueryRegex(1, stem + "diene") == stem + LocantText + "diene"
  {
    var q := stem + "diene";
    assert q[|q| - 5..] == "diene";
    OccursInPrefix(q, "diene", |q|);
    assert OccursAt(q, "diene", |stem|);
    var r := stem + LocantText + "diene";
    assert ' ' !in r by {
      assert forall k | 0 <= k < |r| :: r[k] in stem || r[k] in LocantText || r[k] in "diene";
    }
    assert q[..|q| - 5] == stem;
    NotContainsChar(r, ' ');
  }

  /** A query that contains a suffix without ending in it is left as it is (spaces aside):
      "polyprenyl" contains "ol" and keeps no group. */
  lemma SuffixNotAtEnd(query: string, suffix: string)
    requires suffix in ["diene", "ene", "ol"]
    requires !EndsWith(query, suffix) && !EndsWith(query, suffix + "\n")
    ensures AnchoredInsert(query, suffix) == query
  {
  }

  /** The suffix loop for one query: the first suffix the query contains decides, then the loop stops. */
  method ApplySuffixRule(query: string) returns (regex: string)
    ensures regex == SuffixRegex(query)
  {
    regex := query;
    var suffixes := ["diene", "ene", "ol"];
    assert suffixes[0] == "diene" && suffixes[1] == "ene" && suffixes[2] == "ol";
    for s := 0 to |suffixes|
      invariant regex == query
      invariant forall t :: 0 <= t < s ==> !Contains(query, suffixes[t])
    {
      if Contains(query, suffixes[s]) {
        regex := AnchoredInsert(query, suffixes[s]);
        break;
      }
    }
  }

  lemma ConvertedStep(queries: seq<string>, i: nat)
    requires i < |queries|
    ensures Converted(queries[..i + 1]) == Converted(queries[..i]) + [QueryRegex(i, queries[i])]
  {
    MapIndexedStep(queries, QueryRegex, i);
  }

  /** The loop body for the query at position `i`. */
  method ConvertQuery(i: nat, query: string) returns (regex: string)
    ensures regex == QueryRegex(i, query)
  {
    regex := query;
    if i != 0 {
      regex := ApplySuffixRule(regex);
    }
    regex := ReplaceAll(regex, " ", SpaceSepText);
  }

  /** The start-up loop over one list, rewriting it in place. */
  method ConvertQueryList(queries: array<string>)
    modifies queries
    ensures queries[..] == Converted(old(queries[..]))
  {
    ghost var original := queries[..];
    for i := 0 to queries.Length
      invariant queries[..i] == Converted(original[..i])
      invariant queries[i..] == original[i..]
    {
      ghost var done := queries[..i];
      var regex := ConvertQuery(i, queries[i]);
      assert queries[i] == original[i];
      queries[i] := regex;
      assert queries[..i + 1] == done + [regex];
      assert queries[i + 1..] == original[i + 1..];
      ConvertedStep(original, i);
    }
    assert original[..queries.Length] == original;
  }

  /** The start-up loop over all the converted lists; they are distinct arrays. */
  method ConvertQueryLists(lists: seq<array<string>>)
    requires forall i, j | 0 <= i < j < |lists| :: lists[i] != lists[j]
    modifies set a | a in lists
    ensures forall k | 0 <= k < |lists| :: lists[k][..] == Converted(old(lists[k][..]))
  {
    for i := 0 to |lists|
      invariant forall k | 0 <= k < i :: lists[k][..] == Converted(old(lists[k][..]))
      invariant forall k | i <= k < |lists| :: lists[k][..] == old(lists[k][..])
    {
      assert forall k | 0 <= k < |lists| && k != i :: lists[k] != lists[i];
      ConvertQueryList(lists[i]);
    }
  }

  // ---------------------------------------------------------------- the lists the labelling sees

  /** The query lists grouped as the labelling code walks them. */
  datatype QueryTable = QueryTable(terpeneLists: seq<seq<string>>, terpeneGenerics: seq<string>,
                                   prenylLists: seq<seq<string>>, prenylGenerics: seq<string>)

  /** The lists as written in the script. */
  const WrittenTable: QueryTable := QueryTable(
    [Monoterpene, Sesquiterpene, Diterpene, Sesterterpene, Triterpene, Tetraterpene], GenericTerpene,
    [FPP, GGPP, Phytoene, Squalene, HPP], GenericPrenyltransferase)

  /** A table in the shape of the script's: six terpene lists and five prenyltransferase lists. */
  predicate ScriptShaped(t: QueryTable) {
    |t.terpeneLists| == 6 && |t.prenylLists| == 5
  }

  /** The table after start-up: the terpene lists, the FPP, GGPP and HPP lists and the generic
      prenyltransferase list are converted; the phytoene and squalene lists and the generic
      terpene list are not in the conversion loop and stay as written. */
  function StartupConverted(t: QueryTable): (r: QueryTable)
    requires ScriptShaped(t)
    ensures ScriptShaped(r)
  {
    var p := t.prenylLists;
    QueryTable(seq(6, k requires 0 <= k < 6 => Converted(t.terpeneLists[k])), t.terpeneGenerics,
               [Converted(p[0]), Converted(p[1]), p[2], p[3], Converted(p[4])], Converted(t.prenylGenerics))
  }

  const StartupTable: QueryTable := StartupConverted(WrittenTable)

  /** Fresh, distinct arrays holding the given lists. */
  method ToArrays(lists: seq<seq<string>>) returns (arrays: seq<array<string>>)
    ensures |arrays| == |lists|
    ensures forall k | 0 <= k < |lists| :: fresh(arrays[k]) && arrays[k][..] == lists[k]
    ensures forall i, j | 0 <= i < j < |arrays| :: arrays[i] != arrays[j]
  {
    arrays := [];
    for k := 0 to |lists|
      invariant |arrays| == k
      invariant forall m | 0 <= m < k :: fresh(arrays[m]) && arrays[m][..] == lists[m]
      invariant forall i, j | 0 <= i < j < k :: arrays[i] != arrays[j]
    {
      var a := new string[|lists[k]|](i requires 0 <= i < |lists[k]| => lists[k][i]);
      arrays := arrays + [a];
    }
  }

  /** The start-up loop run on a table of lists: each listed list is rewritten in place. */
  method ConvertTable(t: QueryTable) returns (r: QueryTable)
    requires ScriptShaped(t)
    ensures r == StartupConverted(t)
  {
    var ts, ps := t.terpeneLists, t.prenylLists;
    var listed := ts + [ps[0], ps[1], ps[4], t.prenylGenerics];
    var arrays := ToArrays(listed);
    ConvertQueryLists(arrays);
    assert |arrays| == 10;
    var converted := seq(10, k requires 0 <= k < 10 reads arrays => arrays[k][..]);
    assert forall k | 0 <= k < 10 :: converted[k] == Converted(listed[k]);
    r := QueryTable(converted[..6], t.terpeneGenerics, [converted[6], converted[7], ps[2], ps[3], converted[8]], converted[9]);
    assert r.terpeneLists == StartupConverted(t).terpeneLists;
  }

  /** The module-level start-up of the script. */
  method Startup() returns (t: QueryTable)
    ensures t == StartupTable
  {
    t := ConvertTable(WrittenTable);
  }

  // ---------------------------------------------------------------- labelling

  /** `re.search(query, proteinName, flags=re.IGNORECASE)` on a query's pattern text. */
  predicate QueryMatches(query: string, proteinName: string) {
    Search(Parse(query), proteinName)
  }

  /** The number of queries of a list that match the name. */
  function MatchCount(queries: seq<string>, proteinName: string): (n: nat)
    ensures n <= |queries|
    decreases |queries|
  {
    if queries == [] then 0
    else MatchCount(queries[..|queries| - 1], proteinName) + (if QueryMatches(queries[|queries| - 1], proteinName) then 1 else 0)
  }

  /** `n` copies of `x`. */
  function Repeat(x: string, n: nat): (r: seq<string>)
    ensures |r| == n && forall i :: 0 <= i < n ==> r[i] == x
  {
    if n == 0 then [] else Repeat(x, n - 1) + [x]
  }

  /** The subclass entries one list contributes: its head plus " synthase", once per matching query. */
  function ListEntries(queries: seq<string>, proteinName: string): seq<string> {
    if queries == [] then [] else Repeat(queries[0] + " synthase", MatchCount(queries, proteinName))
  }

  /** The subclass entries a group of lists contributes, list by list. */
  function SubclassEntries(lists: seq<seq<string>>, proteinName: string): seq<string>
    decreases |lists|
  {
    if lists == [] then []
    else SubclassEntries(lists[..|lists| - 1], proteinName) + ListEntries(lists[|lists| - 1], proteinName)
  }

  /** The number of matching queries over a group of lists. */
  function TotalCount(lists: seq<seq<string>>, proteinName: string): nat
    decreases |lists|
  {
    if lists == [] then 0
    else TotalCount(lists[..|lists| - 1], proteinName) + MatchCount(lists[|lists| - 1], proteinName)
  }

  /** The class entries appended by one pass of `assign_enzyme_labels`: one terpene-synthase entry
      per matching terpene query (specific lists, then the generic list), then one
      prenyltransferase entry per matching prenyltransferase query. */
  function ClassEntries(t: QueryTable, proteinName: string): seq<string> {
    Repeat(InterproRecords.TerpeneClass, TotalCount(t.terpeneLists, proteinName) + MatchCount(t.terpeneGenerics, proteinName))
    + Repeat(InterproRecords.PrenylClass, TotalCount(t.prenylLists, proteinName) + MatchCount(t.prenylGenerics, proteinName))
  }

  /** The subclass entries appended by one pass: terpene lists, then prenyltransferase lists. */
  function AllSubclassEntries(t: QueryTable, proteinName: string): seq<string> {
    SubclassEntries(t.terpeneLists, proteinName) + SubclassEntries(t.prenylLists, proteinName)
  }

  /** "unknown" is appended only to a list that is still empty. */
  function WithUnknown(entries: seq<string>): seq<string> {
    if entries == [] then ["unknown"] else entries
  }

  // ---- properties of the labelling

  /** The count of matching queries is the length of the matching sub-list. */
  lemma {:induction false} MatchCountFilter(queries: seq<string>, proteinName: string)
    ensures MatchCount(queries, proteinName) == |Filter(queries, q => QueryMatches(q, proteinName))|
    decreases |queries|
  {
    if queries != [] {
      MatchCountFilter(queries[..|queries| - 1], proteinName);
    }
  }

  /** A list contributes entries exactly when one of its queries matches. */
  lemma {:induction false} MatchCountPositive(queries: seq<string>, proteinName: string)
    ensures MatchCount(queries, proteinName) > 0 <==> exists q :: q in queries && QueryMatches(q, proteinName)
    decreases |queries|
  {
    if queries != [] {
      var init, last := queries[..|queries| - 1], queries[|queries| - 1];
      MatchCountPositive(init, proteinName);
      assert queries == init + [last];
      if exists q :: q in queries && QueryMatches(q, proteinName) {
        var q :| q in queries && QueryMatches(q, proteinName);
        if q != last {
          assert q in init;
        }
      }
    }
  }

  /** There is exactly one subclass entry per matching query in the specific lists. */
  lemma {:induction false} SubclassEntriesLength(lists: seq<seq<string>>, proteinName: string)
    ensures |SubclassEntries(lists, proteinName)| == TotalCount(lists, proteinName)
    decreases |lists|
  {
    if lists != [] {
      SubclassEntriesLength(lists[..|lists| - 1], proteinName);
    }
  }

  /** Every subclass entry comes with a class entry: the class entries are the subclass entries'
      count plus one per matching generic query. */
  lemma ClassEntriesCount(t: QueryTable, proteinName: string)
    ensures |ClassEntries(t, proteinName)|
            == |AllSubclassEntries(t, proteinName)| + MatchCount(t.terpeneGenerics, proteinName) + MatchCount(t.prenylGenerics, proteinName)
  {
    SubclassEntriesLength(t.terpeneLists, proteinName);
    SubclassEntriesLength(t.prenylLists, proteinName);
  }

  /** The subclass entries are exactly the labels of the lists with a matching query. */
  lemma {:induction false} SubclassEntriesIff(lists: seq<seq<string>>, proteinName: string, l: string)
    ensures l in SubclassEntries(lists, proteinName)
            <==> exists k :: 0 <= k < |lists| && |lists[k]| > 0 && l == lists[k][0] + " synthase"
                             && exists q :: q in lists[k] && QueryMatches(q, proteinName)
    decreases |lists|
  {
    if lists != [] {
      var init, last := lists[..|lists| - 1], lists[|lists| - 1];
      SubclassEntriesIff(init, proteinName, l);
      MatchCountPositive(last, proteinName);
      assert forall k | 0 <= k < |init| :: init[k] == lists[k];
      if l in SubclassEntries(lists, proteinName) && l !in SubclassEntries(init, proteinName) {
        assert l in ListEntries(last, proteinName);
        assert |lists| - 1 < |lists|;
      }
      if exists k :: 0 <= k < |lists| && |lists[k]| > 0 && l == lists[k][0] + " synthase"
                     && exists q :: q in lists[k] && QueryMatches(q, proteinName) {
        var k :| 0 <= k < |lists| && |lists[k]| > 0 && l == lists[k][0] + " synthase"
                 && exists q :: q in lists[k] && QueryMatches(q, proteinName);
        if k == |lists| - 1 {
          assert ListEntries(last, proteinName)[0] == l;
        }
      }
    }
  }

  /** The class entries are terpene-synthase entries followed by prenyltransferase entries. */
  lemma ClassEntriesOrder(t: QueryTable, proteinName: string)
    ensures forall l :: l in ClassEntries(t, proteinName) ==> l == InterproRecords.TerpeneClass || l == InterproRecords.PrenylClass
    ensures forall i, j | 0 <= i < j < |ClassEntries(t, proteinName)| ::
              ClassEntries(t, proteinName)[i] == InterproRecords.PrenylClass ==> ClassEntries(t, proteinName)[j] == InterproRecords.PrenylClass
  {
  }

  /** Every subclass entry ends in " synthase", so none of them is "unknown". */
  lemma {:induction false} SubclassEntriesNamed(lists: seq<seq<string>>, proteinName: string)
    ensures forall l :: l in SubclassEntries(lists, proteinName) ==> EndsWith(l, " synthase")
    decreases |lists|
  {
    if lists != [] {
      SubclassEntriesNamed(lists[..|lists| - 1], proteinName);
      var last := lists[|lists| - 1];
      if last != [] {
        var x := last[0] + " synthase";
        assert x[|x| - 9..] == " synthase";
      }
    }
  }

  /** On a fresh record "unknown" ends up in a label list exactly when nothing matched, and then alone. */
  lemma UnknownOnlyWhenNothingMatched(t: QueryTable, proteinName: string)
    ensures "unknown" in WithUnknown(ClassEntries(t, proteinName)) <==> WithUnknown(ClassEntries(t, proteinName)) == ["unknown"]
    ensures "unknown" in WithUnknown(AllSubclassEntries(t, proteinName)) <==> AllSubclassEntries(t, proteinName) == []
  {
    ClassEntriesOrder(t, proteinName);
    SubclassEntriesNamed(t.terpeneLists, proteinName);
    SubclassEntriesNamed(t.prenylLists, proteinName);
    assert !EndsWith("unknown", " synthase");
  }

  lemma {:induction false} MatchCountIgnoresCase(queries: seq<string>, a: string, b: string)
    requires LowerStr(a) == LowerStr(b)
    ensures MatchCount(queries, a) == MatchCount(queries, b)
    decreases |queries|
  {
    if queries != [] {
      MatchCountIgnoresCase(queries[..|queries| - 1], a, b);
      SearchIgnoresCase(Parse(queries[|queries| - 1]), a, b);
    }
  }

  lemma {:induction false} ListsIgnoreCase(lists: seq<seq<string>>, a: string, b: string)
    requires LowerStr(a) == LowerStr(b)
    ensures TotalCount(lists, a) == TotalCount(lists, b)
    ensures SubclassEntries(lists, a) == SubclassEntries(lists, b)
    decreases |lists|
  {
    if lists != [] {
      ListsIgnoreCase(lists[..|lists| - 1], a, b);
      MatchCountIgnoresCase(lists[|lists| - 1], a, b);
    }
  }

  /** Labels do not depend on the case of the protein name. */
  lemma LabelsIgnoreCase(t: QueryTable, a: string, b: string)
    requires LowerStr(a) == LowerStr(b)
    ensures ClassEntries(t, a) == ClassEntries(t, b)
    ensures AllSubclassEntries(t, a) == AllSubclassEntries(t, b)
  {
    ListsIgnoreCase(t.terpeneLists, a, b);
    ListsIgnoreCase(t.prenylLists, a, b);
    MatchCountIgnoresCase(t.terpeneGenerics, a, b);
    MatchCountIgnoresCase(t.prenylGenerics, a, b);
    var terpenes := TotalCount(t.terpeneLists, a) + MatchCount(t.terpeneGenerics, a);
    var prenyls := TotalCount(t.prenylLists, a) + MatchCount(t.prenylGenerics, a);
    assert terpenes == TotalCount(t.terpeneLists, b) + MatchCount(t.terpeneGenerics, b);
    assert prenyls == TotalCount(t.prenylLists, b) + MatchCount(t.prenylGenerics, b);
  }

  // ---- the labelling loops

  lemma RepeatSucc(x: string, n: nat)
    ensures Repeat(x, n + 1) == Repeat(x, n) + [x]
  {
  }

  lemma {:induction false} RepeatAdd(x: string, m: nat, n: nat)
    ensures Repeat(x, m) + Repeat(x, n) == Repeat(x, m + n)
    decreases n
  {
    if n > 0 {
      RepeatAdd(x, m, n - 1);
      ConcatAssoc(Repeat(x, m), Repeat(x, n - 1), [x]);
    }
  }

  lemma MatchCountStep(queries: seq<string>, j: nat, proteinName: string)
    requires j < |queries|
    ensures MatchCount(queries[..j + 1], proteinName)
            == MatchCount(queries[..j], proteinName) + (if QueryMatches(queries[j], proteinName) then 1 else 0)
  {
    assert queries[..j + 1][..j] == queries[..j];
  }

  lemma ListsStep(lists: seq<seq<string>>, i: nat, proteinName: string)
    requires i < |lists|
    ensures TotalCount(lists[..i + 1], proteinName) == TotalCount(lists[..i], proteinName) + MatchCount(lists[i], proteinName)
    ensures SubclassEntries(lists[..i + 1], proteinName) == SubclassEntries(lists[..i], proteinName) + ListEntries(lists[i], proteinName)
  {
    assert lists[..i + 1][..i] == lists[..i];
  }

  /** The inner loop over one specific list: a class entry and a subclass entry per matching query. */
  method ScanList(queries: seq<string>, className: string, proteinName: string,
                  classes0: seq<string>, subclasses0: seq<string>) returns (classes: seq<string>, subclasses: seq<string>)
    ensures classes == classes0 + Repeat(className, MatchCount(queries, proteinName))
    ensures subclasses == subclasses0 + ListEntries(queries, proteinName)
  {
    classes, subclasses := classes0, subclasses0;
    for j := 0 to |queries|
      invariant classes == classes0 + Repeat(className, MatchCount(queries[..j], proteinName))
      invariant subclasses == subclasses0 + ListEntries(queries[..j], proteinName)
    {
      ghost var n := MatchCount(queries[..j], proteinName);
      MatchCountStep(queries, j, proteinName);
      RepeatSucc(className, n);
      RepeatSucc(queries[0] + " synthase", n);
      assert j > 0 ==> queries[..j][0] == queries[0];
      if QueryMatches(queries[j], proteinName) {
        classes := classes + [className];
        subclasses := subclasses + [queries[0] + " synthase"];
      }
    }
    assert queries[..|queries|] == queries;
  }

  lemma ScanListsStep(lists: seq<seq<string>>, i: nat, className: string, proteinName: string,
                      classes0: seq<string>, subclasses0: seq<string>)
    requires i < |lists|
    ensures classes0 + Repeat(className, TotalCount(lists[..i], proteinName)) + Repeat(className, MatchCount(lists[i], proteinName))
            == classes0 + Repeat(className, TotalCount(lists[..i + 1], proteinName))
    ensures subclasses0 + SubclassEntries(lists[..i], proteinName) + ListEntries(lists[i], proteinName)
            == subclasses0 + SubclassEntries(lists[..i + 1], proteinName)
  {
    ListsStep(lists, i, proteinName);
    var m, n := TotalCount(lists[..i], proteinName), MatchCount(lists[i], proteinName);
    RepeatAdd(className, m, n);
    ConcatAssoc(classes0, Repeat(className, m), Repeat(className, n));
    ConcatAssoc(subclasses0, SubclassEntries(lists[..i], proteinName), ListEntries(lists[i], proteinName));
  }

  /** The outer loop over a group of specific lists. */
  method ScanLists(lists: seq<seq<string>>, className: string, proteinName: string,
                   classes0: seq<string>, subclasses0: seq<string>) returns (classes: seq<string>, subclasses: seq<string>)
    ensures classes == classes0 + Repeat(className, TotalCount(lists, proteinName))
    ensures subclasses == subclasses0 + SubclassEntries(lists, proteinName)
  {
    classes, subclasses := classes0, subclasses0;
    for i := 0 to |lists|
      invariant classes == classes0 + Repeat(className, TotalCount(lists[..i], proteinName))
      invariant subclasses == subclasses0 + SubclassEntries(lists[..i], proteinName)
    {
      classes, subclasses := ScanList(lists[i], className, proteinName, classes, subclasses);
      ScanListsStep(lists, i, className, proteinName, classes0, subclasses0);
    }
    assert lists[..|lists|] == lists;
  }

  /** The loop over a generic list: class entries only. */
  method ScanGenerics(generics: seq<string>, className: string, proteinName: string, classes0: seq<string>)
    returns (classes: seq<string>)
    ensures classes == classes0 + Repeat(className, MatchCount(generics, proteinName))
  {
    classes := classes0;
    for j := 0 to |generics|
      invariant classes == classes0 + Repeat(className, MatchCount(generics[..j], proteinName))
    {
      MatchCountStep(generics, j, proteinName);
      RepeatSucc(className, MatchCount(generics[..j], proteinName));
      if QueryMatches(generics[j], proteinName) {
        classes := classes + [className];
      }
    }
    assert generics[..|generics|] == generics;
  }

  lemma RepeatGroups(c0: seq<string>, x: string, y: string, a: nat, b: nat, c: nat, d: nat)
    ensures c0 + Repeat(x, a) + Repeat(x, b) + Repeat(y, c) + Repeat(y, d) == c0 + (Repeat(x, a + b) + Repeat(y, c + d))
  {
    RepeatAdd(x, a, b);
    RepeatAdd(y, c, d);
    ConcatAssoc(c0, Repeat(x, a), Repeat(x, b));
    ConcatAssoc(c0 + Repeat(x, a + b), Repeat(y, c), Repeat(y, d));
    ConcatAssoc(c0, Repeat(x, a + b), Repeat(y, c + d));
  }

  /** The four loops of `assign_enzyme_labels`: terpene lists and generics, then prenyltransferase ones. */
  method ScanTable(t: QueryTable, proteinName: string, classes0: seq<string>, subclasses0: seq<string>)
    returns (classes: seq<string>, subclasses: seq<string>)
    ensures classes == classes0 + ClassEntries(t, proteinName)
    ensures subclasses == subclasses0 + AllSubclassEntries(t, proteinName)
  {
    var terpeneClass, prenylClass := InterproRecords.TerpeneClass, InterproRecords.PrenylClass;
    classes, subclasses := ScanLists(t.terpeneLists, terpeneClass, proteinName, classes0, subclasses0);
    classes := ScanGenerics(t.terpeneGenerics, terpeneClass, proteinName, classes);
    classes, subclasses := ScanLists(t.prenylLists, prenylClass, proteinName, classes, subclasses);
    classes := ScanGenerics(t.prenylGenerics, prenylClass, proteinName, classes);
    ClassEntriesSplit(t, proteinName, classes0);
    ConcatAssoc(subclasses0, SubclassEntries(t.terpeneLists, proteinName), SubclassEntries(t.prenylLists, proteinName));
  }

  lemma ClassEntriesSplit(t: QueryTable, proteinName: string, classes0: seq<string>)
    ensures var terpeneClass, prenylClass := InterproRecords.TerpeneClass, InterproRecords.PrenylClass;
            classes0 + Repeat(terpeneClass, TotalCount(t.terpeneLists, proteinName)) + Repeat(terpeneClass, MatchCount(t.terpeneGenerics, proteinName))
            + Repeat(prenylClass, TotalCount(t.prenylLists, proteinName)) + Repeat(prenylClass, MatchCount(t.prenylGenerics, proteinName))
            == classes0 + ClassEntries(t, proteinName)
  {
    RepeatGroups(classes0, InterproRecords.TerpeneClass, InterproRecords.PrenylClass,
                 TotalCount(t.terpeneLists, proteinName), MatchCount(t.terpeneGenerics, proteinName),
                 TotalCount(t.prenylLists, proteinName), MatchCount(t.prenylGenerics, proteinName));
  }

  /** The body of `assign_enzyme_labels` on label lists that may already hold entries. */
  method AppendEnzymeLabels(t: QueryTable, proteinName: string, classes0: seq<string>, subclasses0: seq<string>)
    returns (classes: seq<string>, subclasses: seq<string>)
    ensures classes == WithUnknown(classes0 + ClassEntries(t, proteinName))
    ensures subclasses == WithUnknown(subclasses0 + AllSubclassEntries(t, proteinName))
  {
    classes, subclasses := ScanTable(t, proteinName, classes0, subclasses0);
    if classes == [] {
      classes := classes + ["unknown"];
    }
    if subclasses == [] {
      subclasses := subclasses + ["unknown"];
    }
  }

  // ---------------------------------------------------------------- records

  /** The four leading fields of the FASTA title, the taxid kept as text. */
  datatype SeqHeader = SeqHeader(accession: string, reviewStatus: string, proteinName: string, taxid: string)

  /** `strip("taxID:")` removes any of these characters from both ends, not the prefix. */
  const TaxidChars: set<char> := {'t', 'a', 'x', 'I', 'D', ':'}

  /** The header split of `InterproRecord.__init__`; fewer than four fields is an index error. */
  function ParseSeqHeader(title: string): (r: Option<SeqHeader>)
    ensures r.None? <==> |Split(title, "|")| < 4
    ensures r.Some? ==> r.value.accession == Split(title, "|")[0] && r.value.proteinName == Split(title, "|")[2]
    ensures r.Some? ==> r.value.taxid == [] || (r.value.taxid[0] !in TaxidChars && r.value.taxid[|r.value.taxid| - 1] !in TaxidChars)
  {
    var fields := Split(title, "|");
    if |fields| < 4 then None
    else Some(SeqHeader(fields[0], fields[1], fields[2], StripChars(fields[3], TaxidChars)))
  }

  /** A title written from its fields reads back as those fields, the taxid as its digits. */
  lemma SeqHeaderRoundTrip(accession: string, status: string, proteinName: string, taxid: nat)
    requires '|' !in accession && '|' !in status && '|' !in proteinName
    ensures ParseSeqHeader(Join([accession, status, proteinName, "taxID:" + NatToString(taxid)], "|"))
            == Some(SeqHeader(accession, status, proteinName, NatToString(taxid)))
  {
    var digits := NatToString(taxid);
    var last := "taxID:" + digits;
    assert '|' !in last by {
      assert forall i | 6 <= i < |last| :: last[i] == digits[i - 6];
    }
    SplitJoinChar([accession, status, proteinName, last], '|');
    StripCharsFramed("taxID:", digits, "", TaxidChars);
    assert "taxID:" + digits + "" == last;
  }

  /** A value of a record attribute: text, or a list of texts. */
  datatype AttrValue = Scalar(text: string) | Items(items: seq<string>)

  /** A record of this script: identity fields fixed at construction, label fields assigned later. */
  class InterproSeqRecord {
    const header: string
    const sequence: string
    const accession: string
    const reviewStatus: string
    const proteinName: string
    const taxid: string
    const id: string
    const description: string
    var organismName: string
    var organismDivision: string
    var enzymeClass: seq<string>
    var enzymeSubclass: seq<string>

    /** The record for a title with the given parsed header: id and description become the accession. */
    constructor (title: string, sequence: string, h: SeqHeader)
      ensures header == title && this.sequence == sequence
      ensures accession == h.accession && reviewStatus == h.reviewStatus && proteinName == h.proteinName && taxid == h.taxid
      ensures id == h.accession && description == h.accession
      ensures organismName == "" && organismDivision == "" && enzymeClass == [] && enzymeSubclass == []
    {
      header := title;
      this.sequence := sequence;
      accession := h.accession;
      reviewStatus := h.reviewStatus;
      proteinName := h.proteinName;
      taxid := h.taxid;
      id := h.accession;
      description := h.accession;
      organismName := "";
      organismDivision := "";
      enzymeClass := [];
      enzymeSubclass := [];
    }

    /** `assign_taxonomic_labels`, with the names the taxonomy returns for the taxid and its
        lineage as inputs; no name is an index error, and the record is left as it was. */
    method AssignTaxonomicLabels(names: seq<string>, lineage: seq<int>) returns (ok: bool)
      modifies this
      ensures ok <==> names != []
      ensures ok ==> organismName == names[0] && organismDivision == InterproRecords.Division(lineage)
      ensures !ok ==> organismName == old(organismName) && organismDivision == old(organismDivision)
      ensures enzymeClass == old(enzymeClass) && enzymeSubclass == old(enzymeSubclass)
    {
      if names == [] {
        return false;
      }
      organismName := names[0];
      if 5204 in lineage {
        organismDivision := "Basidiomycota";
      } else if 4890 in lineage {
        organismDivision := "Ascomycota";
      } else {
        organismDivision := "Other";
      }
      ok := true;
    }

    /** `assign_enzyme_labels`: entries are appended to the current lists. */
    method AssignEnzymeLabels()
      modifies this
      ensures enzymeClass == WithUnknown(old(enzymeClass) + ClassEntries(StartupTable, proteinName))
      ensures enzymeSubclass == WithUnknown(old(enzymeSubclass) + AllSubclassEntries(StartupTable, proteinName))
      ensures organismName == old(organismName) && organismDivision == old(organismDivision)
    {
      enzymeClass, enzymeSubclass := AppendEnzymeLabels(StartupTable, proteinName, enzymeClass, enzymeSubclass);
    }

    /** `getattr(record, name)`: the fields the script sets, and the text and list fields every
        SeqRecord has; a record built from an id, a description and a sequence keeps the default
        name "<unknown name>" and no cross-references or features. */
    function Attribute(name: string): Option<AttrValue>
      reads this
    {
      match name
      case "name" => Some(Scalar("<unknown name>"))
      case "dbxrefs" => Some(Items([]))
      case "features" => Some(Items([]))
      case "header" => Some(Scalar(header))
      case "seq" => Some(Scalar(sequence))
      case "id" => Some(Scalar(id))
      case "description" => Some(Scalar(description))
      case "accession" => Some(Scalar(accession))
      case "review_status" => Some(Scalar(reviewStatus))
      case "protein_name" => Some(Scalar(proteinName))
      case "taxid" => Some(Scalar(taxid))
      case "organism_name" => Some(Scalar(organismName))
      case "organism_division" => Some(Scalar(organismDivision))
      case "enzyme_class" => Some(Items(enzymeClass))
      case "enzyme_subclass" => Some(Items(enzymeSubclass))
      case _ => None
    }
  }

  /** `InterproRecord(seq_record)` */
  method NewRecord(title: string, sequence: string) returns (r: Option<InterproSeqRecord>)
    ensures r.None? <==> ParseSeqHeader(title).None?
    ensures r.Some? ==> fresh(r.value)
    ensures r.Some? ==> var h := ParseSeqHeader(title).value;
      r.value.header == title && r.value.sequence == sequence && r.value.accession == h.accession
      && r.value.id == h.accession && r.value.description == h.accession && r.value.taxid == h.taxid
      && r.value.reviewStatus == h.reviewStatus && r.value.proteinName == h.proteinName
      && r.value.enzymeClass == [] && r.value.enzymeSubclass == []
  {
    match ParseSeqHeader(title)
    case None => r := None;
    case Some(h) =>
      var rec := new InterproSeqRecord(title, sequence, h);
      r := Some(rec);
  }

  // ---------------------------------------------------------------- deduplicate_records

  function SequenceOf(r: InterproSeqRecord): string {
    r.sequence
  }

  /** `deduplicate_records`: the first record of each distinct sequence, in input order. */
  method DeduplicateRecords(records: seq<InterproSeqRecord>) returns (kept: seq<InterproSeqRecord>)
    ensures kept == DedupBy(records, SequenceOf)
    ensures IsSubseq(kept, records)
    ensures KeysOf(kept, SequenceOf) == KeysOf(records, SequenceOf)
    ensures forall a, b | 0 <= a < b < |kept| :: kept[a].sequence != kept[b].sequence
    ensures forall k | 0 <= k < |kept| :: IsFirstWithKey(records, SequenceOf, kept[k])
  {
    var seen: set<string> := {};
    kept := [];
    for i := 0 to |records|
      invariant kept == DedupBy(records[..i], SequenceOf)
      invariant seen == KeysOf(kept, SequenceOf)
    {
      DedupByStep(records, SequenceOf, i);
      var s := records[i].sequence;
      if s in seen {
        continue;
      }
      KeysOfAppend(kept, records[i], SequenceOf);
      seen := seen + {s};
      kept := kept + [records[i]];
    }
    assert records[..|records|] == records;
    DedupByKeys(records, SequenceOf);
    DedupByFirst(records, SequenceOf);
  }

  // ---------------------------------------------------------------- select_records

  /** One entry of the selection dict: an attribute name and the accepted values. */
  datatype Criterion = Criterion(attribute: string, values: seq<string>)

  /** `match` read before any assignment (an empty selection), or a missing attribute. */
  datatype SelectError = UnboundMatch | MissingAttribute(name: string)

  /** A scalar matches by membership, a list when one of its items is a member. */
  predicate ValueMatches(v: AttrValue, values: seq<string>) {
    match v
    case Scalar(x) => x in values
    case Items(items) => exists x :: x in items && x in values
  }

  /** The criteria loop for one record: criteria are tried in order and the first that fails
      ends the loop; an attribute the record lacks raises. */
  function CriteriaMatch(r: InterproSeqRecord, criteria: seq<Criterion>): Result<bool, SelectError>
    reads r
    decreases |criteria|
  {
    if criteria == [] then Success(true)
    else
      match r.Attribute(criteria[0].attribute)
      case None => Failure(MissingAttribute(criteria[0].attribute))
      case Some(v) => if ValueMatches(v, criteria[0].values) then CriteriaMatch(r, criteria[1..]) else Success(false)
  }

  /** Whether a record is kept; with no criteria `match` is never assigned. */
  function RecordSelected(r: InterproSeqRecord, criteria: seq<Criterion>): Result<bool, SelectError>
    reads r
  {
    if criteria == [] then Failure(UnboundMatch) else CriteriaMatch(r, criteria)
  }

  /** `select_records`, record by record; the first error ends the selection. */
  function Selection(records: seq<InterproSeqRecord>, criteria: seq<Criterion>): Result<seq<InterproSeqRecord>, SelectError>
    reads records
    decreases |records|
  {
    if records == [] then Success([])
    else
      match Selection(records[..|records| - 1], criteria)
      case Failure(e) => Failure(e)
      case Success(kept) =>
        var r := records[|records| - 1];
        match RecordSelected(r, criteria)
        case Failure(e) => Failure(e)
        case Success(b) => Success(if b then kept + [r] else kept)
  }

  /** The order-free meaning of a selection: every attribute named exists and matches. */
  predicate MeetsAll(r: InterproSeqRecord, criteria: seq<Criterion>)
    reads r
  {
    forall c | c in criteria :: r.Attribute(c.attribute).Some? && ValueMatches(r.Attribute(c.attribute).value, c.values)
  }

  /** The evaluation with early exit decides exactly `MeetsAll`, and fails only on a missing attribute. */
  lemma {:induction false} CriteriaMatchMeaning(r: InterproSeqRecord, criteria: seq<Criterion>)
    ensures CriteriaMatch(r, criteria).Success? ==> CriteriaMatch(r, criteria).value == MeetsAll(r, criteria)
    ensures CriteriaMatch(r, criteria).Failure? ==>
              exists c :: c in criteria && r.Attribute(c.attribute).None? && CriteriaMatch(r, criteria).error == MissingAttribute(c.attribute)
    ensures (forall c | c in criteria :: r.Attribute(c.attribute).Some?) ==> CriteriaMatch(r, criteria).Success?
    decreases |criteria|
  {
    if criteria != [] {
      CriteriaMatchMeaning(r, criteria[1..]);
      assert forall c | c in criteria[1..] :: c in criteria;
      assert forall c | c in criteria :: c == criteria[0] || c in criteria[1..];
    }
  }

  lemma SelectionStep(records: seq<InterproSeqRecord>, i: nat, criteria: seq<Criterion>)
    requires i < |records|
    ensures Selection(records[..i + 1], criteria)
            == match Selection(records[..i], criteria)
               case Failure(e) => Failure(e)
               case Success(kept) =>
                 match RecordSelected(records[i], criteria)
                 case Failure(e) => Failure(e)
                 case Success(b) => Success(if b then kept + [records[i]] else kept)
  {
    assert records[..i + 1][..i] == records[..i];
  }

  /** A successful selection keeps, in order, exactly the records meeting every criterion. */
  lemma {:induction false} SelectionMeaning(records: seq<InterproSeqRecord>, criteria: seq<Criterion>)
    requires Selection(records, criteria).Success?
    ensures IsSubseq(Selection(records, criteria).value, records)
    ensures forall r :: r in Selection(records, criteria).value <==> r in records && MeetsAll(r, criteria)
    decreases |records|
  {
    if records != [] {
      var init, r := records[..|records| - 1], records[|records| - 1];
      SelectionMeaning(init, criteria);
      var kept := Selection(init, criteria).value;
      var b := RecordSelected(r, criteria).value;
      assert Selection(records, criteria).value == if b then kept + [r] else kept;
      CriteriaMatchMeaning(r, criteria);
      assert records == init + [r];
      SubseqExtend(kept, init, r);
      SelectionMembersStep(kept, init, r, b, criteria);
    }
  }

  lemma SelectionMembersStep(kept: seq<InterproSeqRecord>, init: seq<InterproSeqRecord>, r: InterproSeqRecord,
                             b: bool, criteria: seq<Criterion>)
    requires forall x :: x in kept <==> x in init && MeetsAll(x, criteria)
    requires b == MeetsAll(r, criteria)
    ensures forall x :: x in (if b then kept + [r] else kept) <==> x in init + [r] && MeetsAll(x, criteria)
  {
    forall x ensures x in init + [r] <==> x in init || x == r {
      assert x in init ==> x in init + [r];
    }
  }

  /** A record that is kept or dropped extends the selection of the records before it. */
  lemma SelectionNext(records: seq<InterproSeqRecord>, i: nat, criteria: seq<Criterion>,
                      selected: seq<InterproSeqRecord>, b: bool)
    requires i < |records|
    requires Selection(records[..i], criteria) == Success(selected)
    requires RecordSelected(records[i], criteria) == Success(b)
    ensures Selection(records[..i + 1], criteria) == Success(if b then selected + [records[i]] else selected)
  {
    SelectionStep(records, i, criteria);
  }

  /** A record that raises ends the whole selection with its error. */
  lemma SelectionFails(records: seq<InterproSeqRecord>, i: nat, criteria: seq<Criterion>,
                       selected: seq<InterproSeqRecord>, e: SelectError)
    requires i < |records|
    requires Selection(records[..i], criteria) == Success(selected)
    requires RecordSelected(records[i], criteria) == Failure(e)
    ensures Selection(records, criteria) == Failure(e)
  {
    SelectionStep(records, i, criteria);
    SelectionFailureStays(records, i + 1, criteria);
  }

  /** An empty selection fails on the first record; nothing to select always succeeds. */
  lemma SelectionEdges(records: seq<InterproSeqRecord>, criteria: seq<Criterion>)
    ensures records == [] ==> Selection(records, criteria) == Success([])
    ensures records != [] && criteria == [] ==> Selection(records, criteria) == Failure(UnboundMatch)
  {
    if records != [] && criteria == [] {
      SelectionEmptyCriteria(records);
    }
  }

  lemma {:induction false} SelectionEmptyCriteria(records: seq<InterproSeqRecord>)
    requires records != []
    ensures Selection(records, []) == Failure(UnboundMatch)
    decreases |records|
  {
    if |records| > 1 {
      SelectionEmptyCriteria(records[..|records| - 1]);
    }
  }

  /** Once a prefix of the records fails, the whole selection fails the same way. */
  lemma {:induction false} SelectionFailureStays(records: seq<InterproSeqRecord>, n: nat, criteria: seq<Criterion>)
    requires n <= |records| && Selection(records[..n], criteria).Failure?
    ensures Selection(records, criteria) == Selection(records[..n], criteria)
    decreases |records|
  {
    if n < |records| {
      var init := records[..|records| - 1];
      assert init[..n] == records[..n];
      SelectionFailureStays(init, n, criteria);
    } else {
      assert records[..n] == records;
    }
  }

  /** `select_records`: a `match` flag per attribute, a `break` at the first attribute that
      does not match; the flag keeps its value from one record to the next. */
  method SelectRecords(records: seq<InterproSeqRecord>, criteria: seq<Criterion>)
    returns (r: Result<seq<InterproSeqRecord>, SelectError>)
    ensures r == Selection(records, criteria)
  {
    var selected: seq<InterproSeqRecord> := [];
    var matched: Option<bool> := None;
    for i := 0 to |records|
      invariant Selection(records[..i], criteria) == Success(selected)
      invariant i > 0 ==> criteria != []
      invariant matched.None? <==> i == 0
    {
      var record := records[i];
      var error, m := MatchCriteria(record, criteria);
      if error.Some? {
        SelectionFails(records, i, criteria, selected, error.value);
        return Failure(error.value);
      }
      if m.Some? {
        matched := m;
      }
      if matched.None? {
        SelectionFails(records, i, criteria, selected, UnboundMatch);
        return Failure(UnboundMatch);
      }
      SelectionNext(records, i, criteria, selected, matched.value);
      if matched.value {
        selected := selected + [record];
      }
    }
    assert records[..|records|] == records;
    r := Success(selected);
  }

  /** The criteria loop for one record: `m` is the last value given to `match`, none when
      there are no criteria; `error` is the missing attribute that raises. */
  method MatchCriteria(record: InterproSeqRecord, criteria: seq<Criterion>) returns (error: Option<SelectError>, m: Option<bool>)
    ensures criteria == [] ==> error.None? && m.None?
    ensures criteria != [] && CriteriaMatch(record, criteria).Failure? ==> error == Some(CriteriaMatch(record, criteria).error)
    ensures criteria != [] && CriteriaMatch(record, criteria).Success? ==> error.None? && m == Some(CriteriaMatch(record, criteria).value)
  {
    error, m := None, None;
    var k := 0;
    while k < |criteria|
      invariant 0 <= k <= |criteria|
      invariant CriteriaMatch(record, criteria) == CriteriaMatch(record, criteria[k..])
      invariant m == if k == 0 then None else Some(true)
    {
      var c := criteria[k];
      assert criteria[k..][1..] == criteria[k + 1..];
      var found := false;
      match record.Attribute(c.attribute) {
        case None =>
          return Some(MissingAttribute(c.attribute)), m;
        case Some(Items(items)) =>
          found := AnyItemIn(items, c.values);
        case Some(Scalar(x)) =>
          found := x in c.values;
      }
      m := Some(found);
      if !found {
        assert CriteriaMatch(record, criteria) == Success(false);
        break;
      }
      k := k + 1;
    }
  }

  // ---------------------------------------------------------------- summarise_records

  /** `getattr` of an attribute the record class lacks, or a list value that `Counter` cannot hash. */
  datatype SummaryError = NoSuchAttribute(name: string) | Unhashable(name: string)

  /** The value-collecting loop: the attribute of every record, in order; the first record
      lacking it raises. */
  function Collected(records: seq<InterproSeqRecord>, name: string): (r: Result<seq<AttrValue>, SummaryError>)
    reads records
    ensures r.Success? ==> |r.value| == |records|
    ensures r.Success? ==> forall i | 0 <= i < |records| :: records[i].Attribute(name) == Some(r.value[i])
    decreases |records|
  {
    if records == [] then Success([])
    else
      match Collected(records[..|records| - 1], name)
      case Failure(e) => Failure(e)
      case Success(vs) =>
        match records[|records| - 1].Attribute(name)
        case None => Failure(NoSuchAttribute(name))
        case Some(v) => Success(vs + [v])
  }

  /** The texts of scalar values. */
  function Texts(vs: seq<AttrValue>): (r: seq<string>)
    ensures |r| == |vs| && forall i | 0 <= i < |vs| :: vs[i].Scalar? ==> r[i] == vs[i].text
  {
    seq(|vs|, i requires 0 <= i < |vs| => if vs[i].Scalar? then vs[i].text else "")
  }

  /** `summarise_records` as written. The test meant to rename empty values to "None"
      (`attribute_value is set() or ""`) is always false, so every value is counted as it is. */
  function Summary(records: seq<InterproSeqRecord>, name: string): Result<seq<(string, nat)>, SummaryError>
    reads records
  {
    match Collected(records, name)
    case Failure(e) => Failure(e)
    case Success(vs) =>
      if exists i | 0 <= i < |vs| :: vs[i].Items? then Failure(Unhashable(name))
      else Success(MostCommon(Texts(vs)))
  }

  /** A successful summary has one entry per distinct value, each with its number of records,
      counts summing to the number of records, in non-increasing order of count; empty values
      are counted under "" like any other. */
  lemma SummaryMeaning(records: seq<InterproSeqRecord>, name: string)
    requires Summary(records, name).Success?
    ensures var s := Summary(records, name).value;
      var values := seq(|records|, i reads records requires 0 <= i < |records| => records[i].Attribute(name));
      && DistinctKeys(s)
      && (forall x :: x in Keys(s) <==> Some(Scalar(x)) in values)
      && (forall i | 0 <= i < |s| :: s[i].1 == multiset(values)[Some(Scalar(s[i].0))])
      && SumCounts(s) == |records|
      && NonIncreasing(s)
  {
    var vs := Collected(records, name).value;
    var texts := Texts(vs);
    var values := seq(|records|, i reads records requires 0 <= i < |records| => records[i].Attribute(name));
    var s := Summary(records, name).value;
    assert s == MostCommon(texts);
    MostCommonSpec(texts);
    assert forall i | 0 <= i < |vs| :: vs[i].Scalar?;
    assert forall i | 0 <= i < |records| :: values[i] == Some(Scalar(texts[i]));
    TextsMultiset(texts, values);
    TextsMembers(texts, values);
    forall x ensures x in Keys(s) <==> Some(Scalar(x)) in values {
      assert x in Keys(s) <==> x in texts;
    }
    forall i | 0 <= i < |s| ensures s[i].1 == multiset(values)[Some(Scalar(s[i].0))] {
      assert s[i].1 == multiset(texts)[s[i].0];
    }
  }

  /** Wrapping every text in the same way keeps membership. */
  lemma TextsMembers(texts: seq<string>, values: seq<Option<AttrValue>>)
    requires |texts| == |values| && forall i | 0 <= i < |texts| :: values[i] == Some(Scalar(texts[i]))
    ensures forall x :: x in texts <==> Some(Scalar(x)) in values
  {
    forall x ensures x in texts <==> Some(Scalar(x)) in values {
      if x in texts {
        var i :| 0 <= i < |texts| && texts[i] == x;
        assert values[i] == Some(Scalar(x));
      }
      if Some(Scalar(x)) in values {
        var i :| 0 <= i < |values| && values[i] == Some(Scalar(x));
        assert texts[i] == x;
      }
    }
  }

  /** Wrapping every text in the same way keeps occurrence counts. */
  lemma {:induction false} TextsMultiset(texts: seq<string>, values: seq<Option<AttrValue>>)
    requires |texts| == |values| && forall i | 0 <= i < |texts| :: values[i] == Some(Scalar(texts[i]))
    ensures forall x :: multiset(texts)[x] == multiset(values)[Some(Scalar(x))]
    decreases |texts|
  {
    if texts != [] {
      var n := |texts| - 1;
      TextsMultiset(texts[..n], values[..n]);
      assert texts == texts[..n] + [texts[n]];
      assert values == values[..n] + [values[n]];
    }
  }

  /** The summary fails exactly on a missing attribute or a list-valued one, and only when there
      is a record to read. */
  lemma SummaryErrors(records: seq<InterproSeqRecord>, name: string)
    ensures records == [] ==> Summary(records, name) == Success([])
    ensures (forall i | 0 <= i < |records| :: records[i].Attribute(name).Some? && records[i].Attribute(name).value.Scalar?)
            ==> Summary(records, name).Success?
    ensures Summary(records, name).Failure? ==>
              exists i | 0 <= i < |records| :: records[i].Attribute(name).None? || records[i].Attribute(name).value.Items?
    ensures Summary(records, name) == Failure(NoSuchAttribute(name)) <==>
              exists i | 0 <= i < |records| :: records[i].Attribute(name).None?
    ensures Summary(records, name) == Failure(Unhashable(name)) <==>
              (forall i | 0 <= i < |records| :: records[i].Attribute(name).Some?)
              && exists i | 0 <= i < |records| :: records[i].Attribute(name).Some? && records[i].Attribute(name).value.Items?
  {
    CollectedFails(records, name);
    if forall i | 0 <= i < |records| :: records[i].Attribute(name).Some? {
      CollectedSucceeds(records, name);
      var vs := Collected(records, name).value;
      assert forall i | 0 <= i < |records| :: records[i].Attribute(name) == Some(vs[i]);
    }
  }

  /** The attribute values are collected unless a record lacks the attribute, and then the
      error names it. */
  lemma {:induction false} CollectedFails(records: seq<InterproSeqRecord>, name: string)
    ensures Collected(records, name).Failure? <==> exists i | 0 <= i < |records| :: records[i].Attribute(name).None?
    ensures Collected(records, name).Failure? ==> Collected(records, name).error == NoSuchAttribute(name)
    decreases |records|
  {
    if records != [] {
      var init := records[..|records| - 1];
      CollectedFails(init, name);
      assert forall i | 0 <= i < |init| :: init[i] == records[i];
    }
  }

  lemma {:induction false} CollectedSucceeds(records: seq<InterproSeqRecord>, name: string)
    requires forall i | 0 <= i < |records| :: records[i].Attribute(name).Some?
    ensures Collected(records, name).Success?
    decreases |records|
  {
    if records != [] {
      CollectedSucceeds(records[..|records| - 1], name);
    }
  }

  lemma CollectedStep(records: seq<InterproSeqRecord>, i: nat, name: string)
    requires i < |records|
    ensures Collected(records[..i + 1], name)
            == match Collected(records[..i], name)
               case Failure(e) => Failure(e)
               case Success(vs) =>
                 match records[i].Attribute(name)
                 case None => Failure(NoSuchAttribute(name))
                 case Some(v) => Success(vs + [v])
  {
    assert records[..i + 1][..i] == records[..i];
  }

  lemma {:induction false} CollectedFailureStays(records: seq<InterproSeqRecord>, n: nat, name: string)
    requires n <= |records| && Collected(records[..n], name).Failure?
    ensures Collected(records, name) == Collected(records[..n], name)
    decreases |records|
  {
    if n < |records| {
      var init := records[..|records| - 1];
      assert init[..n] == records[..n];
      CollectedFailureStays(init, n, name);
    } else {
      assert records[..n] == records;
    }
  }

  /** `summarise_records` without its printing: the values are collected in a loop and counted. */
  method SummariseRecords(records: seq<InterproSeqRecord>, name: string) returns (r: Result<seq<(string, nat)>, SummaryError>)
    ensures r == Summary(records, name)
  {
    var values: seq<AttrValue> := [];
    for i := 0 to |records|
      invariant Collected(records[..i], name) == Success(values)
    {
      CollectedStep(records, i, name);
      match records[i].Attribute(name) {
        case None =>
          CollectedFailureStays(records, i + 1, name);
          return Failure(NoSuchAttribute(name));
        case Some(v) =>
          values := values + [v];
      }
    }
    assert records[..|records|] == records;
    for k := 0 to |values|
      invariant forall m | 0 <= m < k :: values[m].Scalar?
    {
      if values[k].Items? {
        return Failure(Unhashable(name));
      }
    }
    r := Success(MostCommon(Texts(values)));
  }
}
