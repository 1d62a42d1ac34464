/** The selection loops the FASTA filtering scripts share: walk the entries of a FASTA
    dictionary in order, keep an entry when its header passes a test and its sequence has not
    been kept before, and write kept headers and sequences to two parallel lists. */
module FastaSelection {
  import opened Text
  import opened Collections

  /** The accessions of an accession list file: each line with trailing whitespace removed. */
  function AccessionList(lines: seq<string>): seq<string> {
    seq(|lines|, k requires 0 <= k < |lines| => RStrip(lines[k]))
  }

  /** An accession list file read line by line: one accession per line, each its line up to
      the last character that is not whitespace. */
  method ReadAccessions(lines: seq<string>) returns (accessions: seq<string>)
    ensures accessions == AccessionList(lines)
    ensures forall k | 0 <= k < |lines| :: StartsWith(lines[k], accessions[k])
    ensures forall k | 0 <= k < |lines| :: accessions[k] == [] || !IsSpace(accessions[k][|accessions[k]| - 1])
    ensures forall k, i | 0 <= k < |lines| && |accessions[k]| <= i < |lines[k]| :: IsSpace(lines[k][i])
  {
    accessions := [];
    for k := 0 to |lines|
      invariant accessions == AccessionList(lines[..k])
    {
      assert AccessionList(lines[..k + 1]) == AccessionList(lines[..k]) + [RStrip(lines[k])];
      accessions := accessions + [RStrip(lines[k])];
    }
    assert lines[..|lines|] == lines;
  }

  function SequenceOfEntry(e: (string, string)): string {
    e.1
  }

  /** The entries a selection keeps: the first entry of each sequence among those that pass. */
  function FirstPerSequence(entries: seq<(string, string)>, keep: ((string, string)) -> bool): seq<(string, string)> {
    DedupBy(Filter(entries, keep), SequenceOfEntry)
  }

  /** Two parallel lists holding the headers and sequences of the given entries. */
  predicate Paired(headers: seq<string>, seqs: seq<string>, entries: seq<(string, string)>) {
    |headers| == |entries| && |seqs| == |entries|
    && forall k | 0 <= k < |entries| :: headers[k] == entries[k].0 && seqs[k] == entries[k].1
  }

  /** What a selection keeps: entries of the input in their order, each passing the test, no
      sequence twice, every passing sequence represented, and each kept entry the first
      passing entry with its sequence. */
  lemma FirstPerSequenceSpec(entries: seq<(string, string)>, keep: ((string, string)) -> bool)
    ensures IsSubseq(FirstPerSequence(entries, keep), entries)
    ensures forall x | x in FirstPerSequence(entries, keep) :: keep(x) && x in entries
    ensures var r := FirstPerSequence(entries, keep); forall a, b | 0 <= a < b < |r| :: r[a].1 != r[b].1
    ensures forall e | e in entries && keep(e) :: e.1 in KeysOf(FirstPerSequence(entries, keep), SequenceOfEntry)
    ensures forall x | x in FirstPerSequence(entries, keep) :: IsFirstWithKey(Filter(entries, keep), SequenceOfEntry, x)
  {
    var passing := Filter(entries, keep);
    var r := DedupBy(passing, SequenceOfEntry);
    FilterSpec(entries, keep);
    DedupByKeys(passing, SequenceOfEntry);
    DedupByFirst(passing, SequenceOfEntry);
    SubseqTrans(r, passing, entries);
    forall x | x in r
      ensures x in passing && IsFirstWithKey(passing, SequenceOfEntry, x)
    {
      var k :| 0 <= k < |r| && r[k] == x;
      var i :| 0 <= i < |passing| && passing[i] == x && FirstWithKey(passing, SequenceOfEntry, i);
    }
    forall e | e in entries && keep(e)
      ensures e.1 in KeysOf(r, SequenceOfEntry)
    {
      assert SequenceOfEntry(e) in KeysOf(passing, SequenceOfEntry);
    }
  }

  /** One more entry walked by a selection loop. */
  lemma FirstPerSequenceStep(entries: seq<(string, string)>, keep: ((string, string)) -> bool, i: nat)
    requires i < |entries|
    ensures var before := FirstPerSequence(entries[..i], keep);
            FirstPerSequence(entries[..i + 1], keep)
            == if keep(entries[i]) && entries[i].1 !in KeysOf(before, SequenceOfEntry) then before + [entries[i]] else before
  {
    FilterStep(entries, keep, i);
    var passing := Filter(entries[..i], keep);
    if keep(entries[i]) {
      var longer := passing + [entries[i]];
      assert Filter(entries[..i + 1], keep) == longer;
      assert longer[..|longer| - 1] == passing && longer[|longer| - 1] == entries[i];
      assert DedupBy(longer, SequenceOfEntry)
             == if SequenceOfEntry(entries[i]) in KeysOf(DedupBy(passing, SequenceOfEntry), SequenceOfEntry)
                then DedupBy(passing, SequenceOfEntry) else DedupBy(passing, SequenceOfEntry) + [entries[i]];
    } else {
      assert Filter(entries[..i + 1], keep) == passing;
    }
  }

  /** Keeping one more entry extends both lists. */
  lemma PairedSnoc(headers: seq<string>, seqs: seq<string>, kept: seq<(string, string)>, e: (string, string))
    requires Paired(headers, seqs, kept)
    ensures Paired(headers + [e.0], seqs + [e.1], kept + [e])
  {
  }

  /** A sequence is among the kept sequences exactly when it is the sequence of a kept entry. */
  lemma PairedMember(headers: seq<string>, seqs: seq<string>, kept: seq<(string, string)>, s: string)
    requires Paired(headers, seqs, kept)
    ensures s in seqs <==> s in KeysOf(kept, SequenceOfEntry)
  {
    if s in seqs {
      var k :| 0 <= k < |seqs| && seqs[k] == s;
      assert SequenceOfEntry(kept[k]) == s;
    }
    if s in KeysOf(kept, SequenceOfEntry) {
      var x :| x in kept && x.1 == s;
      var k :| 0 <= k < |kept| && kept[k] == x;
      assert seqs[k] == s;
    }
  }
}
