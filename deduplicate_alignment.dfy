/** `deduplicate_alignment.py`: the same close-leaf rule as `deduplicate_sequences.py`
    (`find_duplicates` there and here are the same code, modelled once by
    `DeduplicateSequences.FindDuplicates`), applied to the rows of an alignment. */
module DeduplicateAlignment {
  import opened Text
  import opened Collections
  import opened Alignment
  import DeduplicateSequences

  /** The rows `deduplicate_alignment` keeps: those whose id starts with no listed duplicate. */
  function NotDuplicateRow(duplicates: seq<string>): Row -> bool {
    (row: Row) => !StartsWithAny(row.id, duplicates)
  }

  /** `deduplicate_alignment`: the rows whose id starts with no duplicate, in order. */
  method DeduplicateRows(rows: seq<Row>, duplicates: seq<string>) returns (kept: seq<Row>)
    ensures kept == Filter(rows, NotDuplicateRow(duplicates))
  {
    kept := [];
    for i := 0 to |rows|
      invariant kept == Filter(rows[..i], NotDuplicateRow(duplicates))
    {
      FilterStep(rows, NotDuplicateRow(duplicates), i);
      if StartsWithAny(rows[i].id, duplicates) {
      } else {
        kept := kept + [rows[i]];
      }
    }
    assert rows[..|rows|] == rows;
  }

  /** The kept rows are input rows, unchanged and in order, and a row is kept exactly when its
      id starts with no duplicate; with no duplicates every row is kept. */
  lemma DeduplicatedRows(rows: seq<Row>, duplicates: seq<string>)
    ensures IsSubseq(Filter(rows, NotDuplicateRow(duplicates)), rows)
    ensures forall row :: row in Filter(rows, NotDuplicateRow(duplicates)) <==> row in rows && !StartsWithAny(row.id, duplicates)
    ensures duplicates == [] ==> Filter(rows, NotDuplicateRow(duplicates)) == rows
  {
    FilterSpec(rows, NotDuplicateRow(duplicates));
    if duplicates == [] {
      FilterAll(rows, NotDuplicateRow(duplicates));
    }
  }

  /** `main`: the duplicates found in the tree, then the filtered rows. */
  method Run(rows: seq<Row>, leaves: seq<string>, distances: seq<real>, cutOff: real) returns (kept: seq<Row>)
    requires DeduplicateSequences.PairDistances(leaves, distances)
    ensures kept == Filter(rows, NotDuplicateRow(DeduplicateSequences.CloseLeaves(leaves, distances, cutOff)))
  {
    var duplicates := DeduplicateSequences.FindDuplicates(leaves, distances, cutOff);
    kept := DeduplicateRows(rows, duplicates);
  }
}
