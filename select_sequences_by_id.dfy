/** `select_sequences_by_id.py`: keep (or, with `exclude`, drop) the FASTA entries whose header
    starts with a listed accession, writing each sequence at most once. */
module SelectSequencesById {
  import opened Text
  import opened Collections
  import opened FastaSelection

  /** Whether `main` marks a header as selected: starting with a listed accession differs from
      the exclude flag. */
  predicate Selectable(header: string, accessions: seq<string>, exclude: bool) {
    StartsWithAny(header, accessions) != exclude
  }

  function ByIdKeep(accessions: seq<string>, exclude: bool): ((string, string)) -> bool {
    (e: (string, string)) => Selectable(e.0, accessions, exclude)
  }

  /** The selection loop of `main` over the items of the FASTA dictionary. */
  method SelectById(entries: seq<(string, string)>, accessions: seq<string>, exclude: bool)
    returns (headers: seq<string>, seqs: seq<string>)
    ensures Paired(headers, seqs, FirstPerSequence(entries, ByIdKeep(accessions, exclude)))
  {
    ghost var keep := ByIdKeep(accessions, exclude);
    ghost var kept: seq<(string, string)> := [];
    headers, seqs := [], [];
    for i := 0 to |entries|
      invariant Paired(headers, seqs, kept) && kept == FirstPerSequence(entries[..i], keep)
    {
      FirstPerSequenceStep(entries, keep, i);
      var (header, sequence) := entries[i];
      var selected := false;
      if StartsWithAny(header, accessions) {
        if !exclude {
          selected := true;
        }
      } else {
        if exclude {
          selected := true;
        }
      }
      assert selected == keep(entries[i]);
      PairedMember(headers, seqs, kept, sequence);
      if selected && sequence !in seqs {
        PairedSnoc(headers, seqs, kept, entries[i]);
        headers := headers + [header];
        seqs := seqs + [sequence];
        kept := kept + [entries[i]];
      }
    }
    assert entries[..|entries|] == entries;
  }

  /** The selected entries: input entries in order, each header starting with a listed
      accession exactly when `exclude` is off, no sequence twice, the sequence of every
      selectable entry among them, and each the first selectable entry with its sequence. */
  lemma SelectedOutput(entries: seq<(string, string)>, accessions: seq<string>, exclude: bool, headers: seq<string>, seqs: seq<string>)
    requires Paired(headers, seqs, FirstPerSequence(entries, ByIdKeep(accessions, exclude)))
    ensures |headers| == |seqs| && IsSubseq(FirstPerSequence(entries, ByIdKeep(accessions, exclude)), entries)
    ensures forall k | 0 <= k < |headers| :: (headers[k], seqs[k]) in entries && (StartsWithAny(headers[k], accessions) <==> !exclude)
    ensures Distinct(seqs)
    ensures forall e | e in entries && Selectable(e.0, accessions, exclude) :: e.1 in seqs
    ensures forall k | 0 <= k < |headers| :: IsFirstWithKey(Filter(entries, ByIdKeep(accessions, exclude)), SequenceOfEntry, (headers[k], seqs[k]))
  {
    var keep := ByIdKeep(accessions, exclude);
    var r := FirstPerSequence(entries, keep);
    FirstPerSequenceSpec(entries, keep);
    forall k | 0 <= k < |headers|
      ensures (headers[k], seqs[k]) in entries && (StartsWithAny(headers[k], accessions) <==> !exclude)
      ensures IsFirstWithKey(Filter(entries, keep), SequenceOfEntry, (headers[k], seqs[k]))
    {
      assert r[k] in r && r[k] == (headers[k], seqs[k]);
    }
    forall e | e in entries && Selectable(e.0, accessions, exclude)
      ensures e.1 in seqs
    {
      assert keep(e);
      PairedMember(headers, seqs, r, e.1);
    }
  }

  /** An empty accession list selects nothing, and with `exclude` keeps one entry per sequence. */
  lemma EmptyAccessionList(entries: seq<(string, string)>)
    ensures FirstPerSequence(entries, ByIdKeep([], false)) == []
    ensures FirstPerSequence(entries, ByIdKeep([], true)) == DedupBy(entries, SequenceOfEntry)
  {
    FilterSpec(entries, ByIdKeep([], false));
    var none := Filter(entries, ByIdKeep([], false));
    if none != [] {
      assert none[0] in none;
    }
    FilterAll(entries, ByIdKeep([], true));
  }

  /** `main` between reading the files and writing the output: the accession list, then the
      selection loop. */
  method Run(accessionLines: seq<string>, entries: seq<(string, string)>, exclude: bool)
    returns (headers: seq<string>, seqs: seq<string>)
    ensures Paired(headers, seqs, FirstPerSequence(entries, ByIdKeep(AccessionList(accessionLines), exclude)))
  {
    var accessions := ReadAccessions(accessionLines);
    headers, seqs := SelectById(entries, accessions, exclude);
  }
}
