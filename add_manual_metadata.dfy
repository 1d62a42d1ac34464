/** `add_manual_metadata.py`: rows of a tab-separated metadata table are merged, key by key,
    into the JSON document of the accession each row names. The documents are modelled as a
    store from file path to document; a document is a map from key to value. */
module AddManualMetadata {
  import opened Wrappers
  import opened Text
  import opened FastaParsing
  import opened JsonPaths

  /** The values the merge handles: the table's text cells, the enzyme-type list, and any
      other JSON value an existing document holds, which the merge never inspects. */
  datatype Value = Str(s: string) | StrList(items: seq<string>) | Unread(json: string)

  type Document = map<string, Value>
  type Store = map<string, Document>

  /** Python truthiness of a value: an empty string or an empty list is false. */
  predicate Truthy(v: Value) {
    match v
    case Str(s) => s != []
    case StrList(items) => items != []
    case Unread(_) => true
  }

  /** What the merge writes for a metadata value: the value when truthy, else "none". */
  function Stored(v: Value): (w: Value)
    ensures Truthy(w)
    ensures Truthy(v) ==> w == v
    ensures !Truthy(v) ==> w == Str("none")
  {
    if Truthy(v) then v else Str("none")
  }

  /** The value of the last entry with key `k`, if any. */
  function LastFor(entries: seq<(string, Value)>, k: string): (r: Option<Value>)
    ensures r.None? <==> forall i | 0 <= i < |entries| :: entries[i].0 != k
    decreases |entries|
  {
    if entries == [] then None
    else if entries[|entries| - 1].0 == k then Some(entries[|entries| - 1].1)
    else LastFor(entries[..|entries| - 1], k)
  }

  /** The merge loop of `update_json` over a list of entries, written from the last entry. */
  function Updated(base: Document, entries: seq<(string, Value)>): Document
    decreases |entries|
  {
    if entries == [] then base
    else
      var last := entries[|entries| - 1];
      Updated(base, entries[..|entries| - 1])[last.0 := Stored(last.1)]
  }

  /** What the merge leaves: every key of the document or the entries, an entry's key holding
      the stored form of its last value, every other key its old value. */
  lemma {:induction false} UpdatedSpec(base: Document, entries: seq<(string, Value)>)
    ensures forall k :: k in Updated(base, entries) <==> k in base || LastFor(entries, k).Some?
    ensures forall k | LastFor(entries, k).Some? :: Updated(base, entries)[k] == Stored(LastFor(entries, k).value)
    ensures forall k | k in base && LastFor(entries, k).None? :: Updated(base, entries)[k] == base[k]
    decreases |entries|
  {
    if entries != [] {
      UpdatedSpec(base, entries[..|entries| - 1]);
    }
  }

  /** Merging the same entries twice gives what merging them once gives. */
  lemma UpdatedIdempotent(base: Document, entries: seq<(string, Value)>)
    ensures Updated(Updated(base, entries), entries) == Updated(base, entries)
  {
    var once := Updated(base, entries);
    UpdatedSpec(base, entries);
    UpdatedSpec(once, entries);
  }

  /** `json_dir + accession + ".json"`: the directory and the accession are joined with no
      separator between them. */
  function ManualPath(jsonDir: string, accession: string): (p: string)
    ensures |p| == |jsonDir| + |accession| + 5
    ensures p[..|jsonDir|] == jsonDir && p[|jsonDir|..|p| - 5] == accession && p[|p| - 5..] == ".json"
  {
    jsonDir + accession + ".json"
  }

  /** The path agrees with the one the other scripts use only when the directory is given
      with its trailing "/". */
  lemma ManualPathNeedsSlash(jsonDir: string, accession: string)
    ensures ManualPath(jsonDir + "/", accession) == DocumentPath(jsonDir, accession)
  {
  }

  datatype UpdateError = NoAccession

  /** `update_json` on the store: the document of the row's accession (a new one holding only
      the accession when the file does not exist) merged with every entry but the first. An
      accession that is missing, or is not text, stops the script. */
  function UpdateStore(metadata: seq<(string, Value)>, jsonDir: string, store: Store): Result<Store, UpdateError> {
    match LastFor(metadata, "accession")
    case Some(Str(accession)) =>
      var path := ManualPath(jsonDir, accession);
      var base := if path in store then store[path] else map["accession" := Str(accession)];
      Success(store[path := Updated(base, metadata[1..])])
    case _ => Failure(NoAccession)
  }

  /** `update_json`: reads (or starts) the document, writes every entry after the first into
      it in order, and stores it back. */
  method UpdateJson(metadata: seq<(string, Value)>, jsonDir: string, store: Store) returns (r: Result<Store, UpdateError>)
    ensures r == UpdateStore(metadata, jsonDir, store)
  {
    var found := LastFor(metadata, "accession");
    if !found.Some? || !found.value.Str? {
      return Failure(NoAccession);
    }
    var accession := found.value.s;
    var path := jsonDir + accession + ".json";
    var data: Document;
    if path in store {
      data := store[path];
    } else {
      data := map["accession" := Str(accession)];
    }
    ghost var base := data;
    var rest := metadata[1..];
    for i := 0 to |rest|
      invariant data == Updated(base, rest[..i])
    {
      var (key, value) := rest[i];
      assert rest[..i + 1][..i] == rest[..i];
      if Truthy(value) {
        data := data[key := value];
      } else {
        data := data[key := Str("none")];
      }
    }
    assert rest[..|rest|] == rest;
    r := Success(store[path := data]);
  }

  /** What one update does to the store: only the accession's document changes; it keeps
      the keys the metadata does not name, holds the stored value of every later entry, and
      never takes the first entry's value unless a later entry repeats its key. */
  lemma UpdateStoreSpec(metadata: seq<(string, Value)>, jsonDir: string, store: Store, accession: string)
    requires LastFor(metadata, "accession") == Some(Str(accession))
    ensures UpdateStore(metadata, jsonDir, store).Success?
    ensures var after := UpdateStore(metadata, jsonDir, store).value;
            var path := ManualPath(jsonDir, accession);
            var base := if path in store then store[path] else map["accession" := Str(accession)];
            && after.Keys == store.Keys + {path}
            && (forall p | p in store && p != path :: after[p] == store[p])
            && (forall k :: k in after[path] <==> k in base || LastFor(metadata[1..], k).Some?)
            && (forall k | LastFor(metadata[1..], k).Some? :: after[path][k] == Stored(LastFor(metadata[1..], k).value))
            && (forall k | k in base && LastFor(metadata[1..], k).None? :: after[path][k] == base[k])
  {
    var path := ManualPath(jsonDir, accession);
    var base := if path in store then store[path] else map["accession" := Str(accession)];
    UpdatedSpec(base, metadata[1..]);
  }

  /** Applying the same row twice leaves the store as applying it once. */
  lemma UpdateStoreIdempotent(metadata: seq<(string, Value)>, jsonDir: string, store: Store)
    requires UpdateStore(metadata, jsonDir, store).Success?
    ensures UpdateStore(metadata, jsonDir, UpdateStore(metadata, jsonDir, store).value) == UpdateStore(metadata, jsonDir, store)
  {
    var accession := LastFor(metadata, "accession").value.s;
    var path := ManualPath(jsonDir, accession);
    var base := if path in store then store[path] else map["accession" := Str(accession)];
    var after := UpdateStore(metadata, jsonDir, store).value;
    UpdatedIdempotent(base, metadata[1..]);
    assert after[path := after[path]] == after;
  }

  // ---------------------------------------------------------------- the table

  /** `line.strip('\n').split('\t')` */
  function Cells(line: string): seq<string> {
    Split(StripChars(line, {'\n'}), "\t")
  }

  /** A cell as the metadata dictionary holds it: the enzyme-type cell split on ",", every
      other cell as text. */
  function CellValue(key: string, cell: string): Value {
    if key == "enzyme_type" then StrList(Split(cell, ",")) else Str(cell)
  }

  /** The metadata of one row: `dict(zip(column_names, fields))` with its enzyme type turned
      into a list; None when no column is called "enzyme_type". */
  function RowMetadata(columns: seq<string>, line: string): Option<seq<(string, Value)>> {
    var pairs := DictOf(Zip(columns, Cells(line)));
    if KeyIndex(pairs, "enzyme_type") == |pairs| then None
    else Some(seq(|pairs|, k requires 0 <= k < |pairs| => (pairs[k].0, CellValue(pairs[k].0, pairs[k].1))))
  }

  /** With distinct column names, a row's metadata pairs the columns with the row's cells in
      column order, as far as the shorter of the two lists goes. */
  lemma RowMetadataColumns(columns: seq<string>, line: string)
    requires forall i, j | 0 <= i < j < |columns| :: columns[i] != columns[j]
    requires RowMetadata(columns, line).Some?
    ensures var cells := Cells(line);
            var m := RowMetadata(columns, line).value;
            && |m| == (if |columns| < |cells| then |columns| else |cells|)
            && forall k | 0 <= k < |m| :: m[k] == (columns[k], CellValue(columns[k], cells[k]))
  {
    var cells := Cells(line);
    var zipped := Zip(columns, cells);
    assert DistinctKeys(zipped) by {
      forall i, j | 0 <= i < j < |zipped|
        ensures zipped[i].0 != zipped[j].0
      {
        assert zipped[i].0 == columns[i] && zipped[j].0 == columns[j];
      }
    }
    DictOfDistinct(zipped);
  }

  datatype ManualError = EmptyFile | NoEnzymeType(line: nat) | NoAccessionAt(line: nat)

  /** One data row of `main`: its metadata, then `update_json`; an error names the file line. */
  function IngestRow(columns: seq<string>, line: string, lineNo: nat, jsonDir: string, store: Store): Result<Store, ManualError> {
    match RowMetadata(columns, line)
    case None => Failure(NoEnzymeType(lineNo))
    case Some(metadata) =>
      match UpdateStore(metadata, jsonDir, store)
      case Failure(_) => Failure(NoAccessionAt(lineNo))
      case Success(after) => Success(after)
  }

  /** `IngestRow` for a fixed header and directory. */
  function RowStep(columns: seq<string>, jsonDir: string): (string, nat, Store) -> Result<Store, ManualError> {
    (line: string, lineNo: nat, store: Store) => IngestRow(columns, line, lineNo, jsonDir, store)
  }

  /** The row loop of `main` over the data rows, written from the last row: each row is
      applied to the store the earlier rows left, and the first error stops the loop. The
      header is line 0, so data row k is line k + 1. */
  function Ingest(rows: seq<string>, step: (string, nat, Store) -> Result<Store, ManualError>, store: Store)
    : Result<Store, ManualError>
    decreases |rows|
  {
    if rows == [] then Success(store)
    else
      match Ingest(rows[..|rows| - 1], step, store)
      case Failure(e) => Failure(e)
      case Success(before) => step(rows[|rows| - 1], |rows|, before)
  }

  lemma IngestStep(rows: seq<string>, row: string, step: (string, nat, Store) -> Result<Store, ManualError>,
                   store: Store, before: Store)
    requires Ingest(rows, step, store) == Success(before)
    ensures Ingest(rows + [row], step, store) == step(row, |rows| + 1, before)
  {
    assert (rows + [row])[..|rows|] == rows;
  }

  /** One more data row read by the loop of `main`. */
  lemma IngestPrefixStep(rows: seq<string>, k: nat, step: (string, nat, Store) -> Result<Store, ManualError>,
                         store: Store, before: Store)
    requires k < |rows|
    requires Ingest(rows[..k], step, store) == Success(before)
    ensures Ingest(rows[..k + 1], step, store) == step(rows[k], k + 1, before)
  {
    assert rows[..k + 1] == rows[..k] + [rows[k]];
    IngestStep(rows[..k], rows[k], step, store, before);
  }

  /** The first error stops the loop: later rows are not read. */
  lemma {:induction false} IngestStopsAtFailure(rows: seq<string>, n: nat, step: (string, nat, Store) -> Result<Store, ManualError>,
                                                store: Store)
    requires n <= |rows| && Ingest(rows[..n], step, store).Failure?
    ensures Ingest(rows, step, store) == Ingest(rows[..n], step, store)
    decreases |rows|
  {
    if n == |rows| {
      assert rows[..n] == rows;
    } else {
      var init := rows[..|rows| - 1];
      assert init[..n] == rows[..n];
      IngestStopsAtFailure(init, n, step, store);
    }
  }

  /** The store the documents on disk hold once the loop has stopped: the one the longest run of
      leading rows that all succeed leaves, since `update_json` has written each of those rows'
      documents before a later row raises, and a row that raises writes nothing. */
  function Written(rows: seq<string>, step: (string, nat, Store) -> Result<Store, ManualError>, store: Store): Store
    decreases |rows|
  {
    match Ingest(rows, step, store)
    case Success(after) => after
    case Failure(_) => if rows == [] then store else Written(rows[..|rows| - 1], step, store)
  }

  /** When row n is the first to fail, the documents on disk are those the rows before it left. */
  lemma {:induction false} WrittenAtFailure(rows: seq<string>, n: nat, step: (string, nat, Store) -> Result<Store, ManualError>,
                                            store: Store, before: Store)
    requires n < |rows|
    requires Ingest(rows[..n], step, store) == Success(before)
    requires Ingest(rows[..n + 1], step, store).Failure?
    ensures Ingest(rows, step, store).Failure?
    ensures Written(rows, step, store) == before
    decreases |rows|
  {
    IngestStopsAtFailure(rows, n + 1, step, store);
    if |rows| == n + 1 {
      assert rows[..n + 1] == rows;
      assert rows[..|rows| - 1] == rows[..n];
    } else {
      var init := rows[..|rows| - 1];
      assert init[..n] == rows[..n] && init[..n + 1] == rows[..n + 1];
      WrittenAtFailure(init, n, step, store, before);
    }
  }

  /** A row whose second application leaves the store as its first did adds nothing when
      repeated, whatever the step. */
  lemma IngestRepeat(rows: seq<string>, row: string, step: (string, nat, Store) -> Result<Store, ManualError>,
                     store: Store, before: Store, after: Store)
    requires Ingest(rows, step, store) == Success(before)
    requires step(row, |rows| + 1, before) == Success(after)
    requires step(row, |rows| + 2, after) == Success(after)
    ensures Ingest(rows + [row], step, store) == Success(after)
    ensures Ingest(rows + [row, row], step, store) == Success(after)
  {
    IngestStep(rows, row, step, store, before);
    IngestStep(rows + [row], row, step, store, after);
    assert rows + [row] + [row] == rows + [row, row];
  }

  /** A row repeated right after itself changes nothing more. */
  lemma IngestRepeatedRow(columns: seq<string>, rows: seq<string>, row: string, jsonDir: string, store: Store)
    requires Ingest(rows + [row], RowStep(columns, jsonDir), store).Success?
    ensures Ingest(rows + [row, row], RowStep(columns, jsonDir), store) == Ingest(rows + [row], RowStep(columns, jsonDir), store)
  {
    var step := RowStep(columns, jsonDir);
    var once := rows + [row];
    assert once[..|once| - 1] == rows;
    assert Ingest(rows, step, store).Success?;
    var before := Ingest(rows, step, store).value;
    var metadata := RowMetadata(columns, row).value;
    var after := UpdateStore(metadata, jsonDir, before).value;
    UpdateStoreIdempotent(metadata, jsonDir, before);
    assert step(row, |rows| + 1, before) == Success(after);
    assert step(row, |rows| + 2, after) == Success(after);
    IngestRepeat(rows, row, step, store, before, after);
  }

  /** The body of the row loop of `main`. */
  method IngestLine(columns: seq<string>, line: string, lineNo: nat, jsonDir: string, store: Store)
    returns (r: Result<Store, ManualError>)
    ensures r == IngestRow(columns, line, lineNo, jsonDir, store)
  {
    var metadata := RowMetadata(columns, line);
    if metadata.None? {
      return Failure(NoEnzymeType(lineNo));
    }
    var updated := UpdateJson(metadata.value, jsonDir, store);
    if updated.Failure? {
      return Failure(NoAccessionAt(lineNo));
    }
    r := Success(updated.value);
  }

  /** `main`: the first line names the columns, every later line updates one document. A
      file without lines stops at reading the header. `written` is the store on disk when the
      script ends, normally or by an error: the documents of the rows before a failing row have
      already been written. */
  method Run(lines: seq<string>, jsonDir: string, store: Store) returns (r: Result<Store, ManualError>, written: Store)
    ensures lines == [] ==> r == Failure(EmptyFile) && written == store
    ensures lines != [] ==> r == Ingest(lines[1..], RowStep(Cells(lines[0]), jsonDir), store)
    ensures lines != [] ==> written == Written(lines[1..], RowStep(Cells(lines[0]), jsonDir), store)
    ensures r.Success? ==> written == r.value
  {
    if lines == [] {
      return Failure(EmptyFile), store;
    }
    var columns := Cells(lines[0]);
    ghost var rowStep := RowStep(columns, jsonDir);
    var rows := lines[1..];
    var current := store;
    var k := 0;
    while k < |rows|
      invariant k <= |rows|
      invariant Ingest(rows[..k], rowStep, store) == Success(current)
    {
      var step := IngestLine(columns, rows[k], k + 1, jsonDir, current);
      IngestPrefixStep(rows, k, rowStep, store, current);
      if step.Failure? {
        WrittenAtFailure(rows, k, rowStep, store, current);
        IngestStopsAtFailure(rows, k + 1, rowStep, store);
        return step, current;
      }
      current := step.value;
      k := k + 1;
    }
    assert rows[..k] == rows;
    r := Success(current);
    written := current;
  }
}
