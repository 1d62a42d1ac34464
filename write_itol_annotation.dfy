/** `write_itol_annotation.py`: iTOL annotation files for a tree, written from the metadata
    documents of its leaves (in the order the directory listing gives them): a LABELS file that
    names each leaf by its protein name, and a TREE_COLORS file that colours each leaf's label by
    one of its attributes through a legend. Each writer returns the text of the file, which on
    an error holds what had been written before it. */
module WriteItolAnnotation {
  import opened Wrappers
  import opened Text
  import SelectSequences

  type Json = SelectSequences.Json

  /** A record loaded from its JSON document: attribute name to value. */
  type Document = SelectSequences.Document

  /** Why writing a record's line raises: an attribute it lacks, a value that is not text where
      text is concatenated, a list item looked up in the legend, a scalar without a colour. */
  datatype AnnotationError =
    | MissingAttribute(name: string)
    | NotText(name: string)
    | Unhashable(item: Json)
    | NoColour(value: Json)

  const LabelsHeader: seq<string> := ["LABELS", "SEPARATOR TAB", "DATA"]
  const ColoursHeader: seq<string> := ["TREE_COLORS", "SEPARATOR TAB", "DATA"]

  /** Three lines written at once. */
  lemma ThreeLines(a: string, b: string, c: string)
    ensures Terminated([a, b, c]) == a + "\n" + b + "\n" + c + "\n"
  {
    assert [a, b, c][1..] == [b, c] && [b, c][1..] == [c] && [c][1..] == [];
    assert Terminated([c]) == c + "\n";
    assert Terminated([b, c]) == b + "\n" + (c + "\n");
    assert Terminated([a, b, c]) == a + "\n" + (b + "\n" + (c + "\n"));
  }

  /** `record.<name>` where it is concatenated to text. */
  function TextAttribute(doc: Document, name: string): (r: Result<string, AnnotationError>)
    ensures r.Success? <==> name in doc && doc[name].JText?
    ensures r.Success? ==> r.value == doc[name].text
    ensures r.Failure? ==> r.error == if name in doc then NotText(name) else MissingAttribute(name)
  {
    if name !in doc then Failure(MissingAttribute(name))
    else if doc[name].JText? then Success(doc[name].text)
    else Failure(NotText(name))
  }

  // ---------------------------------------------------------------- write_annotation_labels

  /** The data line of one record: accession and protein name, tab-separated. */
  function LabelLine(doc: Document): Result<string, AnnotationError> {
    match TextAttribute(doc, "accession")
    case Failure(e) => Failure(e)
    case Success(accession) =>
      match TextAttribute(doc, "protein_name")
      case Failure(e) => Failure(e)
      case Success(name) => Success(accession + "\t" + name)
  }

  /** `write_annotation_labels`: the three header lines, then one line per record; the file keeps
      the lines written before a record that raises. */
  method WriteAnnotationLabels(records: seq<Document>) returns (text: string, error: Option<AnnotationError>)
    ensures error.None? <==> MapAll(records, LabelLine).Success?
    ensures error.None? ==> text == Terminated(LabelsHeader + MapAll(records, LabelLine).value)
    ensures error.Some? ==> MapAll(records, LabelLine) == Failure(error.value)
    ensures error.Some? ==> exists k | 0 <= k < |records| ::
              LabelLine(records[k]) == Failure(error.value) && MapAll(records[..k], LabelLine).Success?
              && text == Terminated(LabelsHeader + MapAll(records[..k], LabelLine).value)
  {
    text := "LABELS\nSEPARATOR TAB\nDATA\n";
    ghost var lines: seq<string> := [];
    ThreeLines("LABELS", "SEPARATOR TAB", "DATA");
    assert LabelsHeader + lines == LabelsHeader;
    for i := 0 to |records|
      invariant MapAll(records[..i], LabelLine) == Success(lines)
      invariant text == Terminated(LabelsHeader + lines)
    {
      MapAllStep(records, LabelLine, i, lines);
      var line := LabelLine(records[i]);
      if line.Failure? {
        MapAllStops(records, LabelLine, i + 1);
        return text, Some(line.error);
      }
      TerminatedSnoc(LabelsHeader + lines, line.value);
      assert LabelsHeader + lines + [line.value] == LabelsHeader + (lines + [line.value]);
      text := text + line.value + "\n";
      lines := lines + [line.value];
    }
    assert records[..|records|] == records;
    error := None;
  }

  /** A record whose accession and protein name are text that fits in a cell. */
  predicate Labelled(doc: Document) {
    "accession" in doc && doc["accession"].JText? && CellText(doc["accession"].text)
    && "protein_name" in doc && doc["protein_name"].JText? && CellText(doc["protein_name"].text)
  }

  /** Records with text accessions and protein names are all written; read back line by line,
      the labels file is its three header lines and one line per record, and each data line
      splits at its tab into the record's accession and protein name. */
  lemma LabelsReadBack(records: seq<Document>)
    requires forall k | 0 <= k < |records| :: Labelled(records[k])
    ensures MapAll(records, LabelLine).Success?
    ensures var lines := MapAll(records, LabelLine).value;
      |lines| == |records|
      && FileLines(Terminated(LabelsHeader + lines)) == LabelsHeader + lines
      && forall k | 0 <= k < |records| ::
           Labelled(records[k]) && Split(lines[k], "\t") == [records[k]["accession"].text, records[k]["protein_name"].text]
  {
    MapAllSpec(records, LabelLine);
    var lines := MapAll(records, LabelLine).value;
    forall k | 0 <= k < |records|
      ensures BreakFree(lines[k])
      ensures Split(lines[k], "\t") == [records[k]["accession"].text, records[k]["protein_name"].text]
    {
      var a, p := records[k]["accession"].text, records[k]["protein_name"].text;
      assert lines[k] == a + "\t" + p;
      SplitJoinChar([a, p], '\t');
      assert [a, p][1..] == [p];
      assert Join([a, p], "\t") == a + "\t" + p;
    }
    var all := LabelsHeader + lines;
    forall k | 0 <= k < |all| ensures BreakFree(all[k]) {
      if k >= 3 {
        assert all[k] == lines[k - 3];
      }
    }
    TerminatedLines(all);
  }

  // ---------------------------------------------------------------- write_annotation_colours

  /** The scan of a list attribute's items: each item found in the legend sets the colour, so the
      last such item wins and "" stays when there is none; a list item cannot be looked up. */
  function ListColour(items: seq<Json>, legend: map<Json, string>): Result<string, AnnotationError>
    decreases |items|
  {
    if items == [] then Success("")
    else
      match ListColour(items[..|items| - 1], legend)
      case Failure(e) => Failure(e)
      case Success(colour) =>
        var item := items[|items| - 1];
        if item.JList? then Failure(Unhashable(item))
        else if item in legend then Success(legend[item])
        else Success(colour)
  }

  /** The scan fails exactly on a list item; otherwise its colour is the legend entry of the
      last item the legend has, or "" when it has none. */
  lemma {:induction false} ListColourSpec(items: seq<Json>, legend: map<Json, string>)
    ensures ListColour(items, legend).Success? <==> forall k | 0 <= k < |items| :: !items[k].JList?
    ensures (ListColour(items, legend).Success? && (forall k | 0 <= k < |items| :: items[k] !in legend))
              ==> ListColour(items, legend).value == ""
    ensures ListColour(items, legend).Success? ==>
              forall k | 0 <= k < |items| && items[k] in legend && (forall j | k < j < |items| :: items[j] !in legend) ::
                ListColour(items, legend).value == legend[items[k]]
    decreases |items|
  {
    if items != [] {
      var init, last := items[..|items| - 1], items[|items| - 1];
      ListColourSpec(init, legend);
      assert forall k | 0 <= k < |init| :: init[k] == items[k];
    }
  }

  /** The colour of an attribute value: a list is scanned item by item, a scalar is looked up
      and has no colour (`None`) when the legend lacks it. */
  function ValueColour(v: Json, legend: map<Json, string>): Result<Option<string>, AnnotationError> {
    if v.JList? then
      match ListColour(v.items, legend)
      case Failure(e) => Failure(e)
      case Success(c) => Success(Some(c))
    else Success(if v in legend then Some(legend[v]) else None)
  }

  /** The data line of one record: the attribute is read first, its colour found, then the
      accession joined with "label_background" and the colour; a missing colour raises only at
      that last concatenation. */
  function ColourLine(doc: Document, groupBy: string, legend: map<Json, string>): Result<string, AnnotationError> {
    if groupBy !in doc then Failure(MissingAttribute(groupBy))
    else
      match ValueColour(doc[groupBy], legend)
      case Failure(e) => Failure(e)
      case Success(colour) =>
        match TextAttribute(doc, "accession")
        case Failure(e) => Failure(e)
        case Success(accession) =>
          if colour.None? then Failure(NoColour(doc[groupBy]))
          else Success(accession + "\t" + "label_background" + "\t" + colour.value)
  }

  /** The item loop for a list attribute. */
  method ScanItems(items: seq<Json>, legend: map<Json, string>) returns (colour: string, error: Option<AnnotationError>)
    ensures error.None? <==> ListColour(items, legend).Success?
    ensures error.None? ==> colour == ListColour(items, legend).value
    ensures error.Some? ==> ListColour(items, legend) == Failure(error.value)
  {
    colour := "";
    for i := 0 to |items|
      invariant ListColour(items[..i], legend) == Success(colour)
    {
      var item := items[i];
      assert items[..i + 1][..i] == items[..i];
      if item.JList? {
        ListColourStops(items, legend, i + 1);
        return colour, Some(Unhashable(item));
      }
      if item in legend {
        colour := legend[item];
      }
    }
    assert items[..|items|] == items;
    error := None;
  }

  /** Once a prefix of the items fails, the whole scan fails the same way. */
  lemma {:induction false} ListColourStops(items: seq<Json>, legend: map<Json, string>, i: nat)
    requires i <= |items| && ListColour(items[..i], legend).Failure?
    ensures ListColour(items, legend) == ListColour(items[..i], legend)
    decreases |items| - i
  {
    if i < |items| {
      assert items[..i + 1][..i] == items[..i];
      ListColourStops(items, legend, i + 1);
    } else {
      assert items[..i] == items;
    }
  }

  /** One record's line as the loop body of `write_annotation_colours` computes it. */
  method ColourLineOf(doc: Document, groupBy: string, legend: map<Json, string>) returns (r: Result<string, AnnotationError>)
    ensures r == ColourLine(doc, groupBy, legend)
  {
    var colour: Option<string> := Some("");
    if groupBy !in doc {
      return Failure(MissingAttribute(groupBy));
    }
    var value := doc[groupBy];
    if value.JList? {
      var c, error := ScanItems(value.items, legend);
      if error.Some? {
        return Failure(error.value);
      }
      colour := Some(c);
    } else {
      colour := if value in legend then Some(legend[value]) else None;
    }
    var accession := TextAttribute(doc, "accession");
    if accession.Failure? {
      return Failure(accession.error);
    }
    if colour.None? {
      return Failure(NoColour(value));
    }
    r := Success(accession.value + "\t" + "label_background" + "\t" + colour.value);
  }

  /** `write_annotation_colours`, with the legend as `ast.literal_eval` read it: the three
      header lines, then one line per record; the file keeps the lines written before a record
      that raises. */
  method WriteAnnotationColours(records: seq<Document>, groupBy: string, legend: map<Json, string>)
    returns (text: string, error: Option<AnnotationError>)
    ensures error.None? <==> MapAll(records, d => ColourLine(d, groupBy, legend)).Success?
    ensures error.None? ==> text == Terminated(ColoursHeader + MapAll(records, d => ColourLine(d, groupBy, legend)).value)
    ensures error.Some? ==> MapAll(records, d => ColourLine(d, groupBy, legend)) == Failure(error.value)
    ensures error.Some? ==> exists k | 0 <= k < |records| ::
              ColourLine(records[k], groupBy, legend) == Failure(error.value)
              && MapAll(records[..k], d => ColourLine(d, groupBy, legend)).Success?
              && text == Terminated(ColoursHeader + MapAll(records[..k], d => ColourLine(d, groupBy, legend)).value)
  {
    ghost var f := d => ColourLine(d, groupBy, legend);
    text := "TREE_COLORS\nSEPARATOR TAB\nDATA\n";
    ghost var lines: seq<string> := [];
    ThreeLines("TREE_COLORS", "SEPARATOR TAB", "DATA");
    assert ColoursHeader + lines == ColoursHeader;
    for i := 0 to |records|
      invariant MapAll(records[..i], f) == Success(lines)
      invariant text == Terminated(ColoursHeader + lines)
    {
      MapAllStep(records, f, i, lines);
      var line := ColourLineOf(records[i], groupBy, legend);
      if line.Failure? {
        MapAllStops(records, f, i + 1);
        assert ColourLine(records[i], groupBy, legend) == Failure(line.error);
        return text, Some(line.error);
      }
      TerminatedSnoc(ColoursHeader + lines, line.value);
      assert ColoursHeader + lines + [line.value] == ColoursHeader + (lines + [line.value]);
      text := text + line.value + "\n";
      lines := lines + [line.value];
    }
    assert records[..|records|] == records;
    error := None;
  }

  /** A record whose attribute is a list of plain values gets the colour its scan finds: the
      legend entry of the last item the legend has, or none ("") when it has none of them. */
  lemma ColourLineOfList(doc: Document, groupBy: string, legend: map<Json, string>)
    requires groupBy in doc && doc[groupBy].JList?
    requires forall k | 0 <= k < |doc[groupBy].items| :: !doc[groupBy].items[k].JList?
    requires "accession" in doc && doc["accession"].JText?
    ensures ListColour(doc[groupBy].items, legend).Success?
    ensures ColourLine(doc, groupBy, legend)
              == Success(doc["accession"].text + "\tlabel_background\t" + ListColour(doc[groupBy].items, legend).value)
  {
    var v := doc[groupBy];
    var accession := doc["accession"].text;
    ListColourSpec(v.items, legend);
    var c := ListColour(v.items, legend).value;
    assert TextAttribute(doc, "accession") == Success(accession);
    assert ValueColour(v, legend) == Success(Some(c));
    assert accession + "\t" + "label_background" + "\t" + c == accession + "\tlabel_background\t" + c;
  }

  /** A scalar attribute gets its legend entry, and a scalar the legend lacks makes the write
      fail once the accession has been read. */
  lemma ColourLineOfScalar(doc: Document, groupBy: string, legend: map<Json, string>)
    requires groupBy in doc && !doc[groupBy].JList?
    requires "accession" in doc && doc["accession"].JText?
    ensures doc[groupBy] in legend ==>
              ColourLine(doc, groupBy, legend) == Success(doc["accession"].text + "\tlabel_background\t" + legend[doc[groupBy]])
    ensures doc[groupBy] !in legend ==> ColourLine(doc, groupBy, legend) == Failure(NoColour(doc[groupBy]))
  {
    var v := doc[groupBy];
    var accession := doc["accession"].text;
    assert TextAttribute(doc, "accession") == Success(accession);
    if v in legend {
      assert ValueColour(v, legend) == Success(Some(legend[v]));
      assert accession + "\t" + "label_background" + "\t" + legend[v] == accession + "\tlabel_background\t" + legend[v];
    } else {
      assert ValueColour(v, legend) == Success(None);
    }
  }
}
