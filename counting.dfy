/** `collections.Counter(values).most_common()`: occurrence counts of the values, in order of
    first occurrence, then stably sorted by decreasing count. */
module Counting {

  /** The position of the entry for `key`, if there is one. */
  function KeyIndex<T(==)>(tally: seq<(T, nat)>, key: T): (r: int)
    ensures -1 <= r < |tally|
    ensures r >= 0 ==> tally[r].0 == key
    ensures r < 0 ==> forall i | 0 <= i < |tally| :: tally[i].0 != key
    decreases |tally|
  {
    if tally == [] then -1
    else if tally[|tally| - 1].0 == key then |tally| - 1
    else KeyIndex(tally[..|tally| - 1], key)
  }

  /** The counter's entries in first-occurrence order: a new value is appended with count 1, a
      value seen before has its count raised in place. */
  function Tally<T(==)>(values: seq<T>): seq<(T, nat)>
    decreases |values|
  {
    if values == [] then []
    else
      var t := Tally(values[..|values| - 1]);
      var x := values[|values| - 1];
      var k := KeyIndex(t, x);
      if k >= 0 then t[k := (x, t[k].1 + 1)] else t + [(x, 1)]
  }

  /** Sum of the counts. */
  function SumCounts<T>(entries: seq<(T, nat)>): nat
    decreases |entries|
  {
    if entries == [] then 0 else entries[0].1 + SumCounts(entries[1..])
  }

  /** The keys of the entries. */
  function Keys<T>(entries: seq<(T, nat)>): set<T> {
    set i | 0 <= i < |entries| :: entries[i].0
  }

  /** No key occurs twice. */
  predicate DistinctKeys<T(==)>(entries: seq<(T, nat)>) {
    forall i, j | 0 <= i < j < |entries| :: entries[i].0 != entries[j].0
  }

  /** Counts never increase along the sequence. */
  predicate NonIncreasing<T>(entries: seq<(T, nat)>) {
    forall i, j | 0 <= i < j < |entries| :: entries[i].1 >= entries[j].1
  }

  /** Stable insertion by decreasing count: after every entry whose count is at least as large. */
  function InsertByCount<T>(p: (T, nat), sorted: seq<(T, nat)>): (r: seq<(T, nat)>)
    ensures |r| == |sorted| + 1
    decreases |sorted|
  {
    if sorted == [] then [p]
    else if sorted[0].1 >= p.1 then [sorted[0]] + InsertByCount(p, sorted[1..])
    else [p] + sorted
  }

  /** `sorted(entries, key=count, reverse=True)`, a stable sort. */
  function SortByCount<T>(entries: seq<(T, nat)>): (r: seq<(T, nat)>)
    ensures |r| == |entries|
    decreases |entries|
  {
    if entries == [] then []
    else InsertByCount(entries[|entries| - 1], SortByCount(entries[..|entries| - 1]))
  }

  /** `Counter(values).most_common()` */
  function MostCommon<T(==)>(values: seq<T>): seq<(T, nat)> {
    SortByCount(Tally(values))
  }

  // ---------------------------------------------------------------- the tally

  lemma SumCountsAppend<T>(entries: seq<(T, nat)>, p: (T, nat))
    ensures SumCounts(entries + [p]) == SumCounts(entries) + p.1
    decreases |entries|
  {
    if entries != [] {
      assert (entries + [p])[1..] == entries[1..] + [p];
      SumCountsAppend(entries[1..], p);
    }
  }

  lemma {:induction false} SumCountsRaise<T>(entries: seq<(T, nat)>, k: nat, x: T)
    requires k < |entries|
    ensures SumCounts(entries[k := (x, entries[k].1 + 1)]) == SumCounts(entries) + 1
    decreases |entries|
  {
    var e := entries[k := (x, entries[k].1 + 1)];
    if k == 0 {
      assert e[1..] == entries[1..];
    } else {
      assert e[1..] == entries[1..][k - 1 := (x, entries[k].1 + 1)];
      SumCountsRaise(entries[1..], k - 1, x);
    }
  }

  lemma KeysAppend<T>(entries: seq<(T, nat)>, p: (T, nat))
    ensures Keys(entries + [p]) == Keys(entries) + {p.0}
  {
    var e := entries + [p];
    assert e[|entries|].0 == p.0;
    forall x | x in Keys(entries) ensures x in Keys(e) {
      var i :| 0 <= i < |entries| && entries[i].0 == x;
      assert e[i].0 == x;
    }
  }

  lemma KeysRaise<T>(entries: seq<(T, nat)>, k: nat, x: T)
    requires k < |entries| && entries[k].0 == x
    ensures Keys(entries[k := (x, entries[k].1 + 1)]) == Keys(entries)
  {
    var e := entries[k := (x, entries[k].1 + 1)];
    forall y | y in Keys(entries) ensures y in Keys(e) {
      var i :| 0 <= i < |entries| && entries[i].0 == y;
      assert e[i].0 == y;
    }
    forall y | y in Keys(e) ensures y in Keys(entries) {
      var i :| 0 <= i < |e| && e[i].0 == y;
      assert entries[i].0 == y;
    }
  }

  /** The tally has one entry per distinct value. */
  lemma {:induction false} TallyKeys<T>(values: seq<T>)
    ensures DistinctKeys(Tally(values))
    ensures Keys(Tally(values)) == set x | x in values
    decreases |values|
  {
    if values != [] {
      var init, x := values[..|values| - 1], values[|values| - 1];
      var t := Tally(init);
      TallyKeys(init);
      assert values == init + [x];
      assert (set y | y in values) == (set y | y in init) + {x};
      var k := KeyIndex(t, x);
      if k >= 0 {
        KeysRaise(t, k, x);
      } else {
        KeysAppend(t, (x, 1));
      }
    }
  }

  /** Each entry holds its value's number of occurrences. */
  lemma {:induction false} TallyCounts<T>(values: seq<T>)
    ensures forall i | 0 <= i < |Tally(values)| :: Tally(values)[i].1 == multiset(values)[Tally(values)[i].0]
    decreases |values|
  {
    if values != [] {
      var init, x := values[..|values| - 1], values[|values| - 1];
      var t := Tally(init);
      TallyCounts(init);
      TallyKeys(init);
      assert values == init + [x];
      assert multiset(values) == multiset(init) + multiset{x};
      var k := KeyIndex(t, x);
      if k < 0 {
        assert x !in Keys(t);
        assert multiset(init)[x] == 0;
      }
    }
  }

  /** The counts add up to the number of values. */
  lemma {:induction false} TallySum<T>(values: seq<T>)
    ensures SumCounts(Tally(values)) == |values|
    decreases |values|
  {
    if values != [] {
      var init, x := values[..|values| - 1], values[|values| - 1];
      var t := Tally(init);
      TallySum(init);
      var k := KeyIndex(t, x);
      if k >= 0 {
        SumCountsRaise(t, k, x);
      } else {
        SumCountsAppend(t, (x, 1));
      }
    }
  }

  // ---------------------------------------------------------------- the sort

  lemma {:induction false} InsertByCountElements<T>(p: (T, nat), sorted: seq<(T, nat)>)
    ensures multiset(InsertByCount(p, sorted)) == multiset(sorted) + multiset{p}
    ensures SumCounts(InsertByCount(p, sorted)) == SumCounts(sorted) + p.1
    decreases |sorted|
  {
    if sorted != [] && sorted[0].1 >= p.1 {
      var rest := InsertByCount(p, sorted[1..]);
      InsertByCountElements(p, sorted[1..]);
      assert sorted == [sorted[0]] + sorted[1..];
      assert ([sorted[0]] + rest)[1..] == rest;
    } else if sorted != [] {
      assert ([p] + sorted)[1..] == sorted;
    }
  }

  lemma {:induction false} InsertByCountOrdered<T>(p: (T, nat), sorted: seq<(T, nat)>)
    requires NonIncreasing(sorted)
    ensures NonIncreasing(InsertByCount(p, sorted))
    decreases |sorted|
  {
    if sorted != [] && sorted[0].1 >= p.1 {
      InsertByCountOrdered(p, sorted[1..]);
      InsertByCountBound(p, sorted[1..], sorted[0].1);
      ConsNonIncreasing(sorted[0], InsertByCount(p, sorted[1..]));
    } else if sorted != [] {
      ConsNonIncreasing(p, sorted);
    }
  }

  lemma {:induction false} InsertByCountBound<T>(p: (T, nat), sorted: seq<(T, nat)>, c: nat)
    requires p.1 <= c && forall k | 0 <= k < |sorted| :: sorted[k].1 <= c
    ensures forall k | 0 <= k < |sorted| + 1 :: InsertByCount(p, sorted)[k].1 <= c
    decreases |sorted|
  {
    if sorted != [] && sorted[0].1 >= p.1 {
      InsertByCountBound(p, sorted[1..], c);
      var rest := InsertByCount(p, sorted[1..]);
      assert forall k | 1 <= k < |sorted| + 1 :: InsertByCount(p, sorted)[k] == rest[k - 1];
    }
  }

  lemma ConsNonIncreasing<T>(x: (T, nat), rest: seq<(T, nat)>)
    requires NonIncreasing(rest) && forall k | 0 <= k < |rest| :: rest[k].1 <= x.1
    ensures NonIncreasing([x] + rest)
  {
    var s := [x] + rest;
    forall i, j | 0 <= i < j < |s| ensures s[i].1 >= s[j].1 {
      assert s[j] == rest[j - 1];
      if i > 0 {
        assert s[i] == rest[i - 1];
      }
    }
  }

  /** Sorting yields a non-increasing permutation with the same sum. */
  lemma {:induction false} SortByCountSpec<T>(entries: seq<(T, nat)>)
    ensures NonIncreasing(SortByCount(entries))
    ensures multiset(SortByCount(entries)) == multiset(entries)
    ensures SumCounts(SortByCount(entries)) == SumCounts(entries)
    decreases |entries|
  {
    if entries != [] {
      var init, p := entries[..|entries| - 1], entries[|entries| - 1];
      SortByCountSpec(init);
      InsertByCountOrdered(p, SortByCount(init));
      InsertByCountElements(p, SortByCount(init));
      assert entries == init + [p];
      SumCountsAppend(init, p);
    }
  }

  /** Same elements, same keys. */
  lemma KeysPermutation<T>(a: seq<(T, nat)>, b: seq<(T, nat)>)
    requires multiset(a) == multiset(b)
    ensures Keys(a) == Keys(b)
  {
    forall x | x in Keys(a) ensures x in Keys(b) {
      var i :| 0 <= i < |a| && a[i].0 == x;
      assert a[i] in multiset(b);
      var j :| 0 <= j < |b| && b[j] == a[i];
    }
    forall x | x in Keys(b) ensures x in Keys(a) {
      var i :| 0 <= i < |b| && b[i].0 == x;
      assert b[i] in multiset(a);
      var j :| 0 <= j < |a| && a[j] == b[i];
    }
  }

  /** Insertion of an entry with a new key keeps keys distinct. */
  lemma {:induction false} InsertByCountDistinct<T>(p: (T, nat), sorted: seq<(T, nat)>)
    requires DistinctKeys(sorted) && p.0 !in Keys(sorted)
    ensures DistinctKeys(InsertByCount(p, sorted))
    decreases |sorted|
  {
    if sorted != [] {
      KeysCons(sorted[0], sorted[1..]);
      assert sorted == [sorted[0]] + sorted[1..];
      if sorted[0].1 >= p.1 {
        InsertByCountDistinct(p, sorted[1..]);
        InsertByCountKeys(p, sorted[1..]);
        ConsDistinct(sorted[0], InsertByCount(p, sorted[1..]));
      } else {
        ConsDistinct(p, sorted);
      }
    }
  }

  lemma {:induction false} InsertByCountKeys<T>(p: (T, nat), sorted: seq<(T, nat)>)
    ensures Keys(InsertByCount(p, sorted)) == Keys(sorted) + {p.0}
    decreases |sorted|
  {
    if sorted == [] {
      KeysCons(p, []);
    } else {
      KeysCons(sorted[0], sorted[1..]);
      assert sorted == [sorted[0]] + sorted[1..];
      if sorted[0].1 >= p.1 {
        InsertByCountKeys(p, sorted[1..]);
        KeysCons(sorted[0], InsertByCount(p, sorted[1..]));
      } else {
        KeysCons(p, sorted);
      }
    }
  }

  lemma KeysCons<T>(x: (T, nat), rest: seq<(T, nat)>)
    ensures Keys([x] + rest) == {x.0} + Keys(rest)
  {
    var s := [x] + rest;
    assert s[0] == x;
    forall y | y in Keys(s) ensures y in {x.0} + Keys(rest) {
      var i :| 0 <= i < |s| && s[i].0 == y;
      if i > 0 {
        assert rest[i - 1].0 == y;
      }
    }
    forall y | y in Keys(rest) ensures y in Keys(s) {
      var i :| 0 <= i < |rest| && rest[i].0 == y;
      assert s[i + 1].0 == y;
    }
  }

  lemma ConsDistinct<T>(x: (T, nat), rest: seq<(T, nat)>)
    requires DistinctKeys(rest) && x.0 !in Keys(rest)
    ensures DistinctKeys([x] + rest)
  {
    var s := [x] + rest;
    forall i, j | 0 <= i < j < |s| ensures s[i].0 != s[j].0 {
      assert s[j] == rest[j - 1];
      if i > 0 {
        assert s[i] == rest[i - 1];
      } else {
        assert rest[j - 1].0 in Keys(rest);
      }
    }
  }

  lemma {:induction false} SortByCountDistinct<T>(entries: seq<(T, nat)>)
    requires DistinctKeys(entries)
    ensures DistinctKeys(SortByCount(entries))
    decreases |entries|
  {
    if entries != [] {
      var init, p := entries[..|entries| - 1], entries[|entries| - 1];
      SortByCountDistinct(init);
      SortByCountSpec(init);
      KeysPermutation(init, SortByCount(init));
      assert p.0 !in Keys(init) by {
        forall i | 0 <= i < |init| ensures init[i].0 != p.0 {
          assert entries[i] == init[i];
        }
      }
      InsertByCountDistinct(p, SortByCount(init));
    }
  }

  /** `most_common()`: one entry per distinct value, with its number of occurrences, counts
      summing to the number of values, in non-increasing order of count. */
  lemma MostCommonSpec<T>(values: seq<T>)
    ensures DistinctKeys(MostCommon(values))
    ensures Keys(MostCommon(values)) == set x | x in values
    ensures forall i | 0 <= i < |MostCommon(values)| :: MostCommon(values)[i].1 == multiset(values)[MostCommon(values)[i].0]
    ensures SumCounts(MostCommon(values)) == |values|
    ensures NonIncreasing(MostCommon(values))
  {
    var t := Tally(values);
    var r := MostCommon(values);
    TallyKeys(values);
    TallyCounts(values);
    TallySum(values);
    SortByCountSpec(t);
    SortByCountDistinct(t);
    KeysPermutation(t, r);
    forall i | 0 <= i < |r| ensures r[i].1 == multiset(values)[r[i].0] {
      assert r[i] in multiset(t);
    }
  }
}
