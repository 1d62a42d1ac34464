/** `simplify_alignment_headers.py`: cut every row id of an alignment at the first delimiter
    and use the result as both id and description. */
module SimplifyAlignmentHeaders {
  import opened Text
  import opened Alignment

  /** The characters of the pattern `[_,()| ]`. */
  const Delimiters: set<char> := {'_', ',', '(', ')', '|', ' '}

  /** `re.split(r'[_,()| ]', id)[0]`: the id up to its first delimiter. */
  function SimplifiedId(id: string): (r: string)
    ensures StartsWith(id, r)
    ensures forall i | 0 <= i < |r| :: r[i] !in Delimiters
    ensures |r| < |id| ==> id[|r|] in Delimiters
    decreases |id|
  {
    if id == [] || id[0] in Delimiters then []
    else [id[0]] + SimplifiedId(id[1..])
  }

  /** Simplifying a simplified id changes nothing. */
  lemma {:induction false} SimplifiedIdIdempotent(id: string)
    ensures SimplifiedId(SimplifiedId(id)) == SimplifiedId(id)
    decreases |id|
  {
    if id != [] && id[0] !in Delimiters {
      var r := SimplifiedId(id);
      assert r[1..] == SimplifiedId(id[1..]);
      SimplifiedIdIdempotent(id[1..]);
    }
  }

  /** The row after the loop body: new id and description, the same sequence. */
  function SimplifiedRow(row: Row): Row {
    Row(SimplifiedId(row.id), SimplifiedId(row.id), row.sequence)
  }

  lemma SimplifiedRowIdempotent(row: Row)
    ensures SimplifiedRow(SimplifiedRow(row)) == SimplifiedRow(row)
  {
    SimplifiedIdIdempotent(row.id);
  }

  /** The loop of `main`, updating each record of the alignment in place. */
  method Simplify(rows: array<Row>)
    modifies rows
    ensures forall k | 0 <= k < rows.Length :: rows[k] == SimplifiedRow(old(rows[k]))
  {
    for k := 0 to rows.Length
      invariant forall j | 0 <= j < k :: rows[j] == SimplifiedRow(old(rows[j]))
      invariant forall j | k <= j < rows.Length :: rows[j] == old(rows[j])
    {
      var accession := SimplifiedId(rows[k].id);
      rows[k] := rows[k].(id := accession);
      rows[k] := rows[k].(description := accession);
    }
  }
}
