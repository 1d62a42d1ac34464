/** `deduplicate_sequences.py`: drop every FASTA entry whose header starts with the name of a
    leaf that sits close to its right-hand neighbour in a tree, then keep the first entry of
    each remaining sequence. The tree is given as its leaf names in order and the distance
    of each adjacent pair of leaves. */
module DeduplicateSequences {
  import opened Text
  import opened Collections
  import opened FastaSelection

  /** The adjacent-pair distances fit the leaves: one distance per pair `(i, i + 1)`. */
  predicate PairDistances(leaves: seq<string>, distances: seq<real>) {
    if leaves == [] then distances == [] else |distances| == |leaves| - 1
  }

  /** The names `find_duplicates` lists for the first `|distances|` adjacent pairs: the left
      leaf of each pair whose distance is at most the cut-off, in leaf order. */
  function CloseLeaves(leaves: seq<string>, distances: seq<real>, cutOff: real): seq<string>
    requires |distances| < |leaves| || distances == []
    decreases |distances|
  {
    if distances == [] then []
    else
      var n := |distances| - 1;
      CloseLeaves(leaves, distances[..n], cutOff) + (if distances[n] <= cutOff then [leaves[n]] else [])
  }

  /** What `find_duplicates` lists: an ordered selection of the leaves before the last, at most
      one per pair, holding the left leaf of every close pair and only such leaves. */
  lemma CloseLeavesSpec(leaves: seq<string>, distances: seq<real>, cutOff: real)
    requires |distances| < |leaves| || distances == []
    ensures |CloseLeaves(leaves, distances, cutOff)| <= |distances|
    ensures IsSubseq(CloseLeaves(leaves, distances, cutOff), leaves[..|distances|])
    ensures forall i | 0 <= i < |distances| && distances[i] <= cutOff :: leaves[i] in CloseLeaves(leaves, distances, cutOff)
    ensures forall x | x in CloseLeaves(leaves, distances, cutOff) :: exists i | 0 <= i < |distances| :: leaves[i] == x && distances[i] <= cutOff
  {
    CloseLeavesOrdered(leaves, distances, cutOff);
    CloseLeavesMembers(leaves, distances, cutOff);
  }

  lemma {:induction false} CloseLeavesOrdered(leaves: seq<string>, distances: seq<real>, cutOff: real)
    requires |distances| < |leaves| || distances == []
    ensures |CloseLeaves(leaves, distances, cutOff)| <= |distances|
    ensures IsSubseq(CloseLeaves(leaves, distances, cutOff), leaves[..|distances|])
    decreases |distances|
  {
    if distances != [] {
      var n := |distances| - 1;
      var init := CloseLeaves(leaves, distances[..n], cutOff);
      CloseLeavesOrdered(leaves, distances[..n], cutOff);
      assert leaves[..n + 1] == leaves[..n] + [leaves[n]];
      SubseqExtend(init, leaves[..n], leaves[n]);
      if distances[n] <= cutOff {
        assert CloseLeaves(leaves, distances, cutOff) == init + [leaves[n]];
      } else {
        assert CloseLeaves(leaves, distances, cutOff) == init;
      }
    }
  }

  lemma {:induction false} CloseLeavesMembers(leaves: seq<string>, distances: seq<real>, cutOff: real)
    requires |distances| < |leaves| || distances == []
    ensures forall x :: x in CloseLeaves(leaves, distances, cutOff)
                        <==> exists i | 0 <= i < |distances| :: leaves[i] == x && distances[i] <= cutOff
    decreases |distances|
  {
    if distances != [] {
      var n := |distances| - 1;
      CloseLeavesMembers(leaves, distances[..n], cutOff);
      assert forall i | 0 <= i < n :: distances[..n][i] == distances[i];
    }
  }

  /** `find_duplicates`: walks the adjacent leaf pairs and lists the left leaf of each pair
      within the cut-off. */
  method FindDuplicates(leaves: seq<string>, distances: seq<real>, cutOff: real) returns (duplicates: seq<string>)
    requires PairDistances(leaves, distances)
    ensures duplicates == CloseLeaves(leaves, distances, cutOff)
  {
    duplicates := [];
    for i := 0 to |distances|
      invariant duplicates == CloseLeaves(leaves, distances[..i], cutOff)
    {
      assert distances[..i + 1][..i] == distances[..i];
      if distances[i] <= cutOff {
        duplicates := duplicates + [leaves[i]];
      }
    }
    assert distances[..|distances|] == distances;
  }

  /** The last leaf is listed only when its name also belongs to an earlier close leaf. */
  lemma LastLeafNotListed(leaves: seq<string>, distances: seq<real>, cutOff: real)
    requires PairDistances(leaves, distances) && leaves != []
    requires forall i | 0 <= i < |leaves| - 1 :: leaves[i] != leaves[|leaves| - 1]
    ensures leaves[|leaves| - 1] !in CloseLeaves(leaves, distances, cutOff)
  {
    CloseLeavesSpec(leaves, distances, cutOff);
  }

  /** The headers `main` keeps: those starting with no listed duplicate. */
  function NotDuplicate(duplicates: seq<string>): ((string, string)) -> bool {
    (e: (string, string)) => !StartsWithAny(e.0, duplicates)
  }

  /** The selection loop of `main` over the items of the FASTA dictionary. */
  method Deduplicate(entries: seq<(string, string)>, duplicates: seq<string>) returns (headers: seq<string>, seqs: seq<string>)
    ensures Paired(headers, seqs, FirstPerSequence(entries, NotDuplicate(duplicates)))
  {
    ghost var keep := NotDuplicate(duplicates);
    ghost var kept: seq<(string, string)> := [];
    headers, seqs := [], [];
    for i := 0 to |entries|
      invariant Paired(headers, seqs, kept) && kept == FirstPerSequence(entries[..i], keep)
    {
      FirstPerSequenceStep(entries, keep, i);
      var (header, sequence) := entries[i];
      PairedMember(headers, seqs, kept, sequence);
      assert keep(entries[i]) == !StartsWithAny(header, duplicates);
      if !StartsWithAny(header, duplicates) {
        if sequence !in seqs {
          PairedSnoc(headers, seqs, kept, entries[i]);
          headers := headers + [header];
          seqs := seqs + [sequence];
          kept := kept + [entries[i]];
        }
      }
    }
    assert entries[..|entries|] == entries;
  }

  /** The written entries: entries of the input in order, none with a header starting with a
      duplicate, no sequence twice, and the sequence of every other entry among them. */
  lemma DeduplicatedOutput(entries: seq<(string, string)>, duplicates: seq<string>, headers: seq<string>, seqs: seq<string>)
    requires Paired(headers, seqs, FirstPerSequence(entries, NotDuplicate(duplicates)))
    ensures |headers| == |seqs| && IsSubseq(FirstPerSequence(entries, NotDuplicate(duplicates)), entries)
    ensures forall k | 0 <= k < |headers| :: (headers[k], seqs[k]) in entries && !StartsWithAny(headers[k], duplicates)
    ensures Distinct(seqs)
    ensures forall e | e in entries && !StartsWithAny(e.0, duplicates) :: e.1 in seqs
  {
    var keep := NotDuplicate(duplicates);
    var r := FirstPerSequence(entries, keep);
    FirstPerSequenceSpec(entries, keep);
    forall k | 0 <= k < |headers|
      ensures (headers[k], seqs[k]) in entries && !StartsWithAny(headers[k], duplicates)
    {
      assert r[k] in r && r[k] == (headers[k], seqs[k]);
    }
    forall e | e in entries && !StartsWithAny(e.0, duplicates)
      ensures e.1 in seqs
    {
      assert keep(e);
      PairedMember(headers, seqs, r, e.1);
    }
  }

  /** With no duplicates listed, `main` only removes repeated sequences. */
  lemma NoDuplicatesKeepsFirstPerSequence(entries: seq<(string, string)>)
    ensures FirstPerSequence(entries, NotDuplicate([])) == DedupBy(entries, SequenceOfEntry)
  {
    FilterAll(entries, NotDuplicate([]));
  }
}
