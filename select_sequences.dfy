/** `select_sequences.py`: select the accessions of the metadata documents that meet a
    selection dict, then keep the FASTA entries whose header starts with a selected accession.
    Documents are the JSON objects of the metadata directory, given in the order the directory
    listing returns them. */
module SelectSequences {
  import opened Wrappers
  import opened Text
  import opened Collections
  import opened FastaSelection

  /** A JSON value as `json.load` returns it (objects other than the document itself are not
      read by this script). */
  datatype Json = JText(text: string) | JNumber(number: int) | JBool(flag: bool) | JNull | JList(items: seq<Json>)

  /** A metadata document: its keys become the attributes of the loaded record. */
  type Document = map<string, Json>

  /** One entry of the selection dict: an attribute name and the accepted values. */
  datatype Criterion = Criterion(attribute: string, values: seq<Json>)

  datatype SelectError =
    | UnboundMatch               // `match` read before any assignment: an empty selection dict
    | MissingAttribute(name: string)
    | AccessionNotText(value: Json)

  // ---------------------------------------------------------------- select_accessions

  /** A list value matches when one of its items is accepted, any other value when it is. */
  predicate ValueMatches(v: Json, values: seq<Json>) {
    match v
    case JList(items) => exists x :: x in items && x in values
    case _ => v in values
  }

  /** The attribute loop for one document: the first attribute that does not match ends it;
      a missing attribute raises. */
  function CriteriaMatch(doc: Document, criteria: seq<Criterion>): Result<bool, SelectError>
    decreases |criteria|
  {
    if criteria == [] then Success(true)
    else if criteria[0].attribute !in doc then Failure(MissingAttribute(criteria[0].attribute))
    else if ValueMatches(doc[criteria[0].attribute], criteria[0].values) then CriteriaMatch(doc, criteria[1..])
    else Success(false)
  }

  /** The order-free meaning of a selection: every attribute named exists and matches. */
  predicate MeetsAll(doc: Document, criteria: seq<Criterion>) {
    forall c | c in criteria :: c.attribute in doc && ValueMatches(doc[c.attribute], c.values)
  }

  /** The loop with early exit decides exactly `MeetsAll`, and fails only on a missing attribute. */
  lemma {:induction false} CriteriaMatchMeaning(doc: Document, criteria: seq<Criterion>)
    ensures CriteriaMatch(doc, criteria).Success? ==> CriteriaMatch(doc, criteria).value == MeetsAll(doc, criteria)
    ensures CriteriaMatch(doc, criteria).Failure? ==>
              exists c :: c in criteria && c.attribute !in doc && CriteriaMatch(doc, criteria).error == MissingAttribute(c.attribute)
    ensures (forall c | c in criteria :: c.attribute in doc) ==> CriteriaMatch(doc, criteria).Success?
    decreases |criteria|
  {
    if criteria != [] {
      CriteriaMatchMeaning(doc, criteria[1..]);
      assert forall c | c in criteria[1..] :: c in criteria;
      assert forall c | c in criteria :: c == criteria[0] || c in criteria[1..];
    }
  }

  /** What the record loop adds for one document: nothing, its accession, or an error. */
  function AccessionStep(doc: Document, criteria: seq<Criterion>): Result<seq<Json>, SelectError> {
    if criteria == [] then Failure(UnboundMatch)
    else
      match CriteriaMatch(doc, criteria)
      case Failure(e) => Failure(e)
      case Success(false) => Success([])
      case Success(true) => if "accession" in doc then Success([doc["accession"]]) else Failure(MissingAttribute("accession"))
  }

  /** `select_accessions`: the accessions of the selected documents in document order, or the
      error of the first document that raises. */
  function Accessions(docs: seq<Document>, criteria: seq<Criterion>): Result<seq<Json>, SelectError>
    decreases |docs|
  {
    if docs == [] then Success([])
    else
      match Accessions(docs[..|docs| - 1], criteria)
      case Failure(e) => Failure(e)
      case Success(acc) =>
        match AccessionStep(docs[|docs| - 1], criteria)
        case Failure(e) => Failure(e)
        case Success(more) => Success(acc + more)
  }

  function Meets(criteria: seq<Criterion>): Document -> bool {
    (doc: Document) => MeetsAll(doc, criteria)
  }

  /** The accessions of documents that all carry an accession. */
  function AccessionsOf(docs: seq<Document>): seq<Json>
    requires forall d | d in docs :: "accession" in d
  {
    seq(|docs|, k requires 0 <= k < |docs| => docs[k]["accession"])
  }

  /** A successful selection lists, in order, the accession of exactly the documents meeting
      every criterion. */
  lemma {:induction false} AccessionsMeaning(docs: seq<Document>, criteria: seq<Criterion>)
    requires Accessions(docs, criteria).Success?
    ensures forall d | d in Filter(docs, Meets(criteria)) :: "accession" in d
    ensures Accessions(docs, criteria).value == AccessionsOf(Filter(docs, Meets(criteria)))
    decreases |docs|
  {
    if docs != [] {
      var init, doc := docs[..|docs| - 1], docs[|docs| - 1];
      AccessionsMeaning(init, criteria);
      CriteriaMatchMeaning(doc, criteria);
      var sel := Filter(init, Meets(criteria));
      if MeetsAll(doc, criteria) {
        assert Filter(docs, Meets(criteria)) == sel + [doc];
        assert AccessionStep(doc, criteria) == Success([doc["accession"]]);
      } else {
        assert Filter(docs, Meets(criteria)) == sel;
      }
    }
  }

  /** With every attribute present and an accession on every document, selection succeeds;
      with an empty selection dict it fails on the first document. */
  lemma {:induction false} AccessionsSucceed(docs: seq<Document>, criteria: seq<Criterion>)
    requires criteria != []
    requires forall d, c | d in docs && c in criteria :: c.attribute in d
    requires forall d | d in docs :: "accession" in d
    ensures Accessions(docs, criteria).Success?
    decreases |docs|
  {
    if docs != [] {
      var init, doc := docs[..|docs| - 1], docs[|docs| - 1];
      assert forall d | d in init :: d in docs;
      AccessionsSucceed(init, criteria);
      assert doc in docs;
      CriteriaMatchMeaning(doc, criteria);
      assert AccessionStep(doc, criteria).Success?;
    }
  }

  lemma {:induction false} EmptySelectionFails(docs: seq<Document>)
    requires docs != []
    ensures Accessions(docs, []) == Failure(UnboundMatch)
    decreases |docs|
  {
    if |docs| > 1 {
      EmptySelectionFails(docs[..|docs| - 1]);
    }
  }

  lemma AccessionsStep(docs: seq<Document>, i: nat, criteria: seq<Criterion>, acc: seq<Json>)
    requires i < |docs| && Accessions(docs[..i], criteria) == Success(acc)
    ensures Accessions(docs[..i + 1], criteria)
            == match AccessionStep(docs[i], criteria)
               case Failure(e) => Failure(e)
               case Success(more) => Success(acc + more)
  {
    assert docs[..i + 1][..i] == docs[..i];
  }

  lemma {:induction false} AccessionsStops(docs: seq<Document>, i: nat, criteria: seq<Criterion>)
    requires i <= |docs| && Accessions(docs[..i], criteria).Failure?
    ensures Accessions(docs, criteria) == Accessions(docs[..i], criteria)
    decreases |docs| - i
  {
    if i < |docs| {
      assert docs[..i + 1][..i] == docs[..i];
      AccessionsStops(docs, i + 1, criteria);
    } else {
      assert docs[..i] == docs;
    }
  }

  /** The attribute loop for one document: `m` is the last value given to `match` (none when
      there are no criteria); `error` is the missing attribute that raises. */
  method MatchCriteria(doc: Document, criteria: seq<Criterion>) returns (error: Option<SelectError>, m: Option<bool>)
    ensures criteria == [] ==> error.None? && m.None?
    ensures criteria != [] && CriteriaMatch(doc, criteria).Failure? ==> error == Some(CriteriaMatch(doc, criteria).error)
    ensures criteria != [] && CriteriaMatch(doc, criteria).Success? ==> error.None? && m == Some(CriteriaMatch(doc, criteria).value)
  {
    error, m := None, None;
    var k := 0;
    while k < |criteria|
      invariant 0 <= k <= |criteria|
      invariant CriteriaMatch(doc, criteria) == CriteriaMatch(doc, criteria[k..])
      invariant m == if k == 0 then None else Some(true)
    {
      var c := criteria[k];
      assert criteria[k..][1..] == criteria[k + 1..];
      var found := false;
      if c.attribute !in doc {
        return Some(MissingAttribute(c.attribute)), m;
      }
      match doc[c.attribute] {
        case JList(items) =>
          found := AnyItemIn(items, c.values);
        case _ =>
          found := doc[c.attribute] in c.values;
      }
      m := Some(found);
      if !found {
        assert CriteriaMatch(doc, criteria) == Success(false);
        break;
      }
      k := k + 1;
    }
  }

  /** `select_accessions`: the `match` flag is set per attribute and read after the attribute
      loop; it is never reset between documents. */
  method SelectAccessions(docs: seq<Document>, criteria: seq<Criterion>) returns (r: Result<seq<Json>, SelectError>)
    ensures r == Accessions(docs, criteria)
  {
    var selected: seq<Json> := [];
    var matched: Option<bool> := None;
    for i := 0 to |docs|
      invariant Accessions(docs[..i], criteria) == Success(selected)
      invariant i > 0 ==> criteria != []
      invariant matched.None? <==> i == 0
    {
      AccessionsStep(docs, i, criteria, selected);
      var doc := docs[i];
      var error, m := MatchCriteria(doc, criteria);
      if error.Some? {
        AccessionsStops(docs, i + 1, criteria);
        return Failure(error.value);
      }
      if m.Some? {
        matched := m;
      }
      if matched.None? {
        AccessionsStops(docs, i + 1, criteria);
        return Failure(UnboundMatch);
      }
      assert criteria != [] && AccessionStep(doc, criteria) == if !matched.value then Success([])
             else if "accession" in doc then Success([doc["accession"]]) else Failure(MissingAttribute("accession"));
      if matched.value {
        if "accession" !in doc {
          AccessionsStops(docs, i + 1, criteria);
          return Failure(MissingAttribute("accession"));
        }
        selected := selected + [doc["accession"]];
      } else {
        assert selected + [] == selected;
      }
    }
    assert docs[..|docs|] == docs;
    r := Success(selected);
  }

  // ---------------------------------------------------------------- header selection

  /** `header.startswith(tuple(prefixes))`: prefixes are tried in order and the first that
      matches decides; a prefix that is not text raises when the test reaches it. */
  function PrefixTest(header: string, prefixes: seq<Json>): Result<bool, SelectError>
    decreases |prefixes|
  {
    if prefixes == [] then Success(false)
    else
      match prefixes[0]
      case JText(p) => if StartsWith(header, p) then Success(true) else PrefixTest(header, prefixes[1..])
      case v => Failure(AccessionNotText(v))
  }

  /** The texts of a list of JSON strings. */
  function Texts(values: seq<Json>): seq<string>
    requires forall v | v in values :: v.JText?
  {
    seq(|values|, k requires 0 <= k < |values| => values[k].text)
  }

  /** With text prefixes only, the test is `StartsWithAny` on their texts. */
  lemma {:induction false} PrefixTestText(header: string, prefixes: seq<Json>)
    requires forall v | v in prefixes :: v.JText?
    ensures PrefixTest(header, prefixes) == Success(StartsWithAny(header, Texts(prefixes)))
    decreases |prefixes|
  {
    if prefixes != [] {
      var rest := prefixes[1..];
      assert forall v | v in rest :: v in prefixes;
      PrefixTestText(header, rest);
      assert forall k | 0 <= k < |rest| :: Texts(rest)[k] == Texts(prefixes)[k + 1];
      if StartsWith(header, prefixes[0].text) {
        assert StartsWith(header, Texts(prefixes)[0]);
      } else {
        if StartsWithAny(header, Texts(prefixes)) {
          var i :| 0 <= i < |prefixes| && StartsWith(header, Texts(prefixes)[i]);
          assert StartsWith(header, Texts(rest)[i - 1]);
        }
        if StartsWithAny(header, Texts(rest)) {
          var i :| 0 <= i < |rest| && StartsWith(header, Texts(rest)[i]);
          assert StartsWith(header, Texts(prefixes)[i + 1]);
        }
      }
    }
  }

  function HeaderTest(prefixes: seq<Json>): ((string, string)) -> Result<bool, SelectError> {
    (e: (string, string)) => PrefixTest(e.0, prefixes)
  }

  function PrefixKeep(prefixes: seq<string>): ((string, string)) -> bool {
    (e: (string, string)) => StartsWithAny(e.0, prefixes)
  }

  /** The header loop of `main` over the items of the FASTA dictionary. */
  method SelectHeaders(entries: seq<(string, string)>, prefixes: seq<Json>)
    returns (r: Result<(seq<string>, seq<string>), SelectError>)
    ensures FilterOrFail(entries, HeaderTest(prefixes)).Failure? ==> r == Failure(FilterOrFail(entries, HeaderTest(prefixes)).error)
    ensures FilterOrFail(entries, HeaderTest(prefixes)).Success? ==>
              r.Success? && Paired(r.value.0, r.value.1, FilterOrFail(entries, HeaderTest(prefixes)).value)
  {
    var headers, seqs := [], [];
    ghost var kept: seq<(string, string)> := [];
    for i := 0 to |entries|
      invariant FilterOrFail(entries[..i], HeaderTest(prefixes)) == Success(kept) && Paired(headers, seqs, kept)
    {
      FilterOrFailStep(entries, HeaderTest(prefixes), i, kept);
      var (header, sequence) := entries[i];
      var test := PrefixTest(header, prefixes);
      if test.Failure? {
        FilterOrFailStops(entries, HeaderTest(prefixes), i + 1);
        return Failure(test.error);
      }
      if test.value {
        headers := headers + [header];
        seqs := seqs + [sequence];
        kept := kept + [entries[i]];
      }
    }
    assert entries[..|entries|] == entries;
    r := Success((headers, seqs));
  }

  /** With text accessions, the kept entries are exactly those whose header starts with one of
      them, in input order; with no accession nothing is kept. */
  lemma HeadersKept(entries: seq<(string, string)>, prefixes: seq<Json>)
    requires forall v | v in prefixes :: v.JText?
    ensures FilterOrFail(entries, HeaderTest(prefixes)) == Success(Filter(entries, PrefixKeep(Texts(prefixes))))
    ensures IsSubseq(Filter(entries, PrefixKeep(Texts(prefixes))), entries)
    ensures forall e :: e in Filter(entries, PrefixKeep(Texts(prefixes))) <==> e in entries && StartsWithAny(e.0, Texts(prefixes))
    ensures prefixes == [] ==> Filter(entries, PrefixKeep(Texts(prefixes))) == []
  {
    forall e | e in entries
      ensures HeaderTest(prefixes)(e) == Success(PrefixKeep(Texts(prefixes))(e))
    {
      PrefixTestText(e.0, prefixes);
    }
    FilterOrFailTotal(entries, HeaderTest(prefixes), PrefixKeep(Texts(prefixes)));
    FilterSpec(entries, PrefixKeep(Texts(prefixes)));
  }

  /** `main` between reading the inputs and writing the output. */
  method Run(docs: seq<Document>, criteria: seq<Criterion>, entries: seq<(string, string)>)
    returns (r: Result<(seq<string>, seq<string>), SelectError>)
    ensures Accessions(docs, criteria).Failure? ==> r == Failure(Accessions(docs, criteria).error)
    ensures Accessions(docs, criteria).Success? ==>
              var test := FilterOrFail(entries, HeaderTest(Accessions(docs, criteria).value));
              (test.Failure? ==> r == Failure(test.error))
              && (test.Success? ==> r.Success? && Paired(r.value.0, r.value.1, test.value))
  {
    var accessions := SelectAccessions(docs, criteria);
    if accessions.Failure? {
      return Failure(accessions.error);
    }
    r := SelectHeaders(entries, accessions.value);
  }
}
