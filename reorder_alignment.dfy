/** `reorder_alignment.py`: move the rows whose id is listed in an accession file to the top of
    an alignment, keeping the order within both groups. */
module ReorderAlignment {
  import opened Collections
  import opened Alignment
  import opened FastaSelection

  function Listed(accessions: seq<string>): Row -> bool {
    (row: Row) => row.id in accessions
  }

  function Unlisted(accessions: seq<string>): Row -> bool {
    (row: Row) => row.id !in accessions
  }

  /** The two-group loop of `main` and the concatenation of the groups. */
  method Reorder(rows: seq<Row>, accessions: seq<string>) returns (reordered: seq<Row>)
    ensures reordered == Filter(rows, Listed(accessions)) + Filter(rows, Unlisted(accessions))
  {
    var group1, group2 := [], [];
    for i := 0 to |rows|
      invariant group1 == Filter(rows[..i], Listed(accessions))
      invariant group2 == Filter(rows[..i], Unlisted(accessions))
    {
      FilterStep(rows, Listed(accessions), i);
      FilterStep(rows, Unlisted(accessions), i);
      var row := rows[i];
      if row.id in accessions {
        group1 := group1 + [row];
      } else {
        group2 := group2 + [row];
      }
    }
    assert rows[..|rows|] == rows;
    reordered := group1 + group2;
  }

  /** The reordered alignment is a permutation of the input rows, and each group holds the
      rows of its kind in their input order. */
  lemma ReorderedSpec(rows: seq<Row>, accessions: seq<string>)
    ensures |Filter(rows, Listed(accessions)) + Filter(rows, Unlisted(accessions))| == |rows|
    ensures multiset(Filter(rows, Listed(accessions)) + Filter(rows, Unlisted(accessions))) == multiset(rows)
    ensures IsSubseq(Filter(rows, Listed(accessions)), rows) && IsSubseq(Filter(rows, Unlisted(accessions)), rows)
    ensures forall x :: x in Filter(rows, Listed(accessions)) <==> x in rows && x.id in accessions
    ensures forall x :: x in Filter(rows, Unlisted(accessions)) <==> x in rows && x.id !in accessions
  {
    FilterPartition(rows, Listed(accessions), Unlisted(accessions));
    FilterSpec(rows, Listed(accessions));
    FilterSpec(rows, Unlisted(accessions));
  }

  /** Every listed row comes before every unlisted row. */
  lemma ListedFirst(rows: seq<Row>, accessions: seq<string>)
    ensures var r := Filter(rows, Listed(accessions)) + Filter(rows, Unlisted(accessions));
            forall i, j | 0 <= i < |r| && 0 <= j < |r| && r[i].id in accessions && r[j].id !in accessions :: i < j
  {
    var group1, group2 := Filter(rows, Listed(accessions)), Filter(rows, Unlisted(accessions));
    FilterSpec(rows, Listed(accessions));
    FilterSpec(rows, Unlisted(accessions));
    GroupsOrdered(group1, group2, accessions);
  }

  lemma GroupsOrdered(group1: seq<Row>, group2: seq<Row>, accessions: seq<string>)
    requires forall x | x in group1 :: x.id in accessions
    requires forall x | x in group2 :: x.id !in accessions
    ensures var r := group1 + group2;
            forall i, j | 0 <= i < |r| && 0 <= j < |r| && r[i].id in accessions && r[j].id !in accessions :: i < j
  {
    var r := group1 + group2;
    assert forall i | |group1| <= i < |r| :: r[i] == group2[i - |group1|] && r[i] in group2;
    assert forall i | 0 <= i < |group1| :: r[i] == group1[i] && r[i] in group1;
  }

  /** `main` between reading and writing the alignment. */
  method Run(accessionLines: seq<string>, rows: seq<Row>) returns (reordered: seq<Row>)
    ensures reordered == Filter(rows, Listed(AccessionList(accessionLines))) + Filter(rows, Unlisted(AccessionList(accessionLines)))
  {
    var accessions := ReadAccessions(accessionLines);
    reordered := Reorder(rows, accessions);
  }
}
