/** Sequence and set helpers shared by the scripts' list handling. */
module Collections {
  import opened Wrappers

  /** No element occurs twice. */
  predicate Distinct<T(==)>(s: seq<T>) {
    forall i, j | 0 <= i < j < |s| :: s[i] != s[j]
  }

  /** `list(s)` for a Python set: every element exactly once, in an order the language
      leaves open (modelled by an arbitrary choice at each step). */
  method ListOfSet<T(==)>(s: set<T>) returns (r: seq<T>)
    ensures Distinct(r) && |r| == |s|
    ensures forall x :: x in r <==> x in s
  {
    r := [];
    var rest := s;
    while rest != {}
      invariant rest <= s && Distinct(r)
      invariant forall x :: x in r <==> x in s && x !in rest
      invariant |r| + |rest| == |s|
      decreases |rest|
    {
      var x :| x in rest;
      r := r + [x];
      rest := rest - {x};
    }
  }

  /** Position of the first occurrence of `x`, or |xs| when it does not occur. */
  function FirstIndex<T(==)>(xs: seq<T>, x: T): (i: nat)
    ensures i <= |xs|
    ensures i < |xs| ==> xs[i] == x
    ensures forall j :: 0 <= j < i ==> xs[j] != x
  {
    if xs == [] then 0 else if xs[0] == x then 0 else 1 + FirstIndex(xs[1..], x)
  }

  /** `[f(i, x) for i, x in enumerate(xs)]` */
  function MapIndexed<A, B>(xs: seq<A>, f: (nat, A) -> B): (r: seq<B>)
    ensures |r| == |xs| && forall i :: 0 <= i < |xs| ==> r[i] == f(i, xs[i])
  {
    seq(|xs|, i requires 0 <= i < |xs| => f(i, xs[i]))
  }

  /** Mapping a prefix one element longer. */
  lemma MapIndexedStep<A, B>(xs: seq<A>, f: (nat, A) -> B, i: nat)
    requires i < |xs|
    ensures MapIndexed(xs[..i + 1], f) == MapIndexed(xs[..i], f) + [f(i, xs[i])]
  {
    var longer, shorter := MapIndexed(xs[..i + 1], f), MapIndexed(xs[..i], f);
    assert forall k | 0 <= k < i :: longer[k] == shorter[k];
  }

  /** `a` is an order-preserving subsequence of `b` (matched greedily from the end). */
  predicate IsSubseq<T(==)>(a: seq<T>, b: seq<T>)
    decreases |b|
  {
    |a| <= |b|
    && (a == []
        || if a[|a| - 1] == b[|b| - 1] then IsSubseq(a[..|a| - 1], b[..|b| - 1])
           else IsSubseq(a, b[..|b| - 1]))
  }

  /** Appending an element to the longer sequence, with or without keeping it, preserves
      the subsequence relation. */
  lemma {:induction false} SubseqExtend<T>(a: seq<T>, b: seq<T>, x: T)
    requires IsSubseq(a, b)
    ensures IsSubseq(a, b + [x]) && IsSubseq(a + [x], b + [x])
    decreases |b|, 1
  {
    assert (b + [x])[..|b|] == b;
    assert (a + [x])[..|a|] == a;
    if a != [] && a[|a| - 1] == x {
      SubseqDropLast(a, b);
    }
  }

  lemma {:induction false} SubseqDropLast<T>(a: seq<T>, b: seq<T>)
    requires a != [] && IsSubseq(a, b)
    ensures IsSubseq(a[..|a| - 1], b)
    decreases |b|, 0
  {
    var a', b' := a[..|a| - 1], b[..|b| - 1];
    assert b == b' + [b[|b| - 1]];
    if a[|a| - 1] == b[|b| - 1] {
      SubseqExtend(a', b', b[|b| - 1]);
    } else {
      SubseqDropLast(a, b');
      SubseqExtend(a', b', b[|b| - 1]);
    }
  }

  /** Every sequence is a subsequence of itself. */
  lemma {:induction false} SubseqRefl<T>(a: seq<T>)
    ensures IsSubseq(a, a)
    decreases |a|
  {
    if a != [] {
      SubseqRefl(a[..|a| - 1]);
    }
  }

  /** The subsequence relation is transitive. */
  lemma {:induction false} SubseqTrans<T>(a: seq<T>, b: seq<T>, c: seq<T>)
    requires IsSubseq(a, b) && IsSubseq(b, c)
    ensures IsSubseq(a, c)
    decreases |c|
  {
    if a != [] {
      var c', z := c[..|c| - 1], c[|c| - 1];
      assert c == c' + [z];
      if b[|b| - 1] == z {
        var b' := b[..|b| - 1];
        if a[|a| - 1] == b[|b| - 1] {
          SubseqTrans(a[..|a| - 1], b', c');
        } else {
          SubseqTrans(a, b', c');
        }
      } else {
        SubseqTrans(a, b, c');
        SubseqExtend(a, c', z);
      }
    }
  }

  /** The elements of `xs` that satisfy `p`, in order. */
  function Filter<T>(xs: seq<T>, p: T -> bool): (r: seq<T>)
    ensures |r| <= |xs|
    decreases |xs|
  {
    if xs == [] then []
    else Filter(xs[..|xs| - 1], p) + (if p(xs[|xs| - 1]) then [xs[|xs| - 1]] else [])
  }

  /** A filter keeps exactly the elements satisfying the predicate, in their order. */
  lemma {:induction false} FilterSpec<T>(xs: seq<T>, p: T -> bool)
    ensures IsSubseq(Filter(xs, p), xs)
    ensures forall x :: x in Filter(xs, p) <==> x in xs && p(x)
    decreases |xs|
  {
    if xs != [] {
      var init, last := xs[..|xs| - 1], xs[|xs| - 1];
      FilterSpec(init, p);
      assert xs == init + [last];
      SubseqExtend(Filter(init, p), init, last);
      if p(last) {
        assert Filter(xs, p) == Filter(init, p) + [last];
      } else {
        assert Filter(xs, p) == Filter(init, p);
      }
      forall x ensures x in xs <==> x in init || x == last {
        assert x in init ==> x in xs;
      }
    }
  }

  /** A filter whose predicate holds for every element keeps the whole sequence. */
  lemma {:induction false} FilterAll<T>(xs: seq<T>, p: T -> bool)
    requires forall x | x in xs :: p(x)
    ensures Filter(xs, p) == xs
    decreases |xs|
  {
    if xs != [] {
      var init, last := xs[..|xs| - 1], xs[|xs| - 1];
      forall x | x in init
        ensures p(x)
      {
        assert x in xs;
      }
      FilterAll(init, p);
      assert p(last);
      assert Filter(xs, p) == Filter(init, p) + [last];
      assert xs == init + [last];
    }
  }

  /** Splitting by a predicate and its negation loses and duplicates nothing. */
  lemma {:induction false} FilterPartition<T>(xs: seq<T>, p: T -> bool, q: T -> bool)
    requires forall x :: q(x) == !p(x)
    ensures multiset(Filter(xs, p)) + multiset(Filter(xs, q)) == multiset(xs)
    ensures |Filter(xs, p)| + |Filter(xs, q)| == |xs|
    decreases |xs|
  {
    if xs != [] {
      var init, last := xs[..|xs| - 1], xs[|xs| - 1];
      FilterPartition(init, p, q);
      assert xs == init + [last];
      assert multiset(xs) == multiset(init) + multiset{last};
      if p(last) {
        assert Filter(xs, p) == Filter(init, p) + [last];
        assert Filter(xs, q) == Filter(init, q);
      } else {
        assert Filter(xs, p) == Filter(init, p);
        assert Filter(xs, q) == Filter(init, q) + [last];
      }
    }
  }

  /** The filter of a prefix one element longer. */
  lemma FilterStep<T>(xs: seq<T>, p: T -> bool, i: nat)
    requires i < |xs|
    ensures Filter(xs[..i + 1], p) == Filter(xs[..i], p) + (if p(xs[i]) then [xs[i]] else [])
  {
    assert xs[..i + 1][..i] == xs[..i];
  }

  /** The keys of the elements of `xs`. */
  function KeysOf<T(==), K>(xs: seq<T>, key: T -> K): set<K> {
    set x | x in xs :: key(x)
  }

  /** Python's "keep an element only if its key has not been seen": the first element for
      each key, in input order. */
  function DedupBy<T(==), K(==)>(xs: seq<T>, key: T -> K): (r: seq<T>)
    decreases |xs|
  {
    if xs == [] then []
    else
      var d := DedupBy(xs[..|xs| - 1], key);
      if key(xs[|xs| - 1]) in KeysOf(d, key) then d else d + [xs[|xs| - 1]]
  }

  /** The element at `i` is the first with its key. */
  predicate FirstWithKey<T, K(==)>(xs: seq<T>, key: T -> K, i: nat)
    requires i < |xs|
  {
    forall j | 0 <= j < i :: key(xs[j]) != key(xs[i])
  }

  /** `x` occurs in `xs` at a position that is the first with its key. */
  predicate IsFirstWithKey<T(==), K(==)>(xs: seq<T>, key: T -> K, x: T) {
    exists i | 0 <= i < |xs| :: xs[i] == x && FirstWithKey(xs, key, i)
  }

  /** Deduplication keeps an ordered subsequence holding every key exactly once. */
  lemma DedupByKeys<T, K>(xs: seq<T>, key: T -> K)
    ensures IsSubseq(DedupBy(xs, key), xs)
    ensures KeysOf(DedupBy(xs, key), key) == KeysOf(xs, key)
    ensures forall a, b | 0 <= a < b < |DedupBy(xs, key)| :: key(DedupBy(xs, key)[a]) != key(DedupBy(xs, key)[b])
  {
    DedupBySubseq(xs, key);
    DedupByKeySet(xs, key);
    DedupByDistinct(xs, key);
  }

  lemma {:induction false} DedupBySubseq<T, K>(xs: seq<T>, key: T -> K)
    ensures IsSubseq(DedupBy(xs, key), xs)
    decreases |xs|
  {
    if xs != [] {
      var init, last := xs[..|xs| - 1], xs[|xs| - 1];
      var d := DedupBy(init, key);
      DedupBySubseq(init, key);
      assert xs == init + [last];
      SubseqExtend(d, init, last);
      if key(last) in KeysOf(d, key) {
        assert DedupBy(xs, key) == d;
      } else {
        assert DedupBy(xs, key) == d + [last];
      }
    }
  }

  lemma {:induction false} DedupByKeySet<T, K>(xs: seq<T>, key: T -> K)
    ensures KeysOf(DedupBy(xs, key), key) == KeysOf(xs, key)
    decreases |xs|
  {
    if xs != [] {
      var init, last := xs[..|xs| - 1], xs[|xs| - 1];
      var d := DedupBy(init, key);
      DedupByKeySet(init, key);
      assert xs == init + [last];
      KeysOfAppend(init, last, key);
      KeysOfAppend(d, last, key);
    }
  }

  lemma {:induction false} DedupByDistinct<T, K>(xs: seq<T>, key: T -> K)
    ensures forall a, b | 0 <= a < b < |DedupBy(xs, key)| :: key(DedupBy(xs, key)[a]) != key(DedupBy(xs, key)[b])
    decreases |xs|
  {
    if xs != [] {
      var init, last := xs[..|xs| - 1], xs[|xs| - 1];
      var d := DedupBy(init, key);
      DedupByDistinct(init, key);
      if key(last) !in KeysOf(d, key) {
        DistinctKeysSnoc(d, last, key);
      }
    }
  }

  lemma DistinctKeysSnoc<T, K>(d: seq<T>, last: T, key: T -> K)
    requires forall a, b | 0 <= a < b < |d| :: key(d[a]) != key(d[b])
    requires key(last) !in KeysOf(d, key)
    ensures var r := d + [last]; forall a, b | 0 <= a < b < |r| :: key(r[a]) != key(r[b])
  {
    var r := d + [last];
    forall a, b | 0 <= a < b < |r| ensures key(r[a]) != key(r[b]) {
      if b == |d| {
        assert r[a] in d;
      }
    }
  }

  /** Every element that deduplication keeps is the first input element with its key. */
  lemma {:induction false} DedupByFirst<T, K>(xs: seq<T>, key: T -> K)
    ensures forall k | 0 <= k < |DedupBy(xs, key)| :: IsFirstWithKey(xs, key, DedupBy(xs, key)[k])
    decreases |xs|
  {
    if xs == [] {
      assert DedupBy(xs, key) == [];
    } else {
      var init, last := xs[..|xs| - 1], xs[|xs| - 1];
      var d := DedupBy(init, key);
      DedupByFirst(init, key);
      DedupByKeySet(init, key);
      assert xs == init + [last];
      DedupByFirstStep(xs, init, last, key, d, DedupBy(xs, key));
    }
  }

  lemma DedupByFirstStep<T, K>(xs: seq<T>, init: seq<T>, last: T, key: T -> K, d: seq<T>, r: seq<T>)
    requires xs == init + [last]
    requires KeysOf(d, key) == KeysOf(init, key)
    requires r == if key(last) in KeysOf(d, key) then d else d + [last]
    requires forall k | 0 <= k < |d| :: IsFirstWithKey(init, key, d[k])
    ensures forall k | 0 <= k < |r| :: IsFirstWithKey(xs, key, r[k])
  {
    assert forall i | 0 <= i < |init| :: init[i] == xs[i];
    forall k | 0 <= k < |r| ensures IsFirstWithKey(xs, key, r[k]) {
      if k < |d| {
        assert r[k] == d[k];
        var i :| 0 <= i < |init| && init[i] == d[k] && FirstWithKey(init, key, i);
        assert xs[i] == r[k] && FirstWithKey(xs, key, i);
      } else {
        var w := |xs| - 1;
        assert xs[w] == r[k];
        assert FirstWithKey(xs, key, w) by {
          forall j | 0 <= j < |xs| - 1 ensures key(xs[j]) != key(last) {
            assert xs[j] in init;
            assert key(xs[j]) in KeysOf(init, key);
          }
        }
      }
    }
  }

  /** The deduplication of a prefix one element longer. */
  lemma DedupByStep<T, K>(xs: seq<T>, key: T -> K, i: nat)
    requires i < |xs|
    ensures DedupBy(xs[..i + 1], key)
            == if key(xs[i]) in KeysOf(DedupBy(xs[..i], key), key) then DedupBy(xs[..i], key)
               else DedupBy(xs[..i], key) + [xs[i]]
  {
    assert xs[..i + 1][..i] == xs[..i];
  }

  /** Extending a prefix of `xs` appended to `a` by one element. */
  lemma AppendPrefixStep<T>(a: seq<T>, xs: seq<T>, k: nat)
    requires k < |xs|
    ensures a + xs[..k + 1] == (a + xs[..k]) + [xs[k]]
  {
    assert xs[..k + 1] == xs[..k] + [xs[k]];
  }

  lemma ConcatAssoc<T>(a: seq<T>, b: seq<T>, c: seq<T>)
    ensures a + b + c == a + (b + c)
  {
  }

  lemma KeysOfAppend<T, K>(xs: seq<T>, x: T, key: T -> K)
    ensures KeysOf(xs + [x], key) == KeysOf(xs, key) + {key(x)}
  {
    forall y | y in xs + [x] ensures y in xs || y == x { }
    forall y | y in xs ensures y in xs + [x] { }
  }

  /** Some element of a non-empty list satisfies `p` iff one before the last does or the last does. */
  lemma ExistsLast<T>(xs: seq<T>, init: seq<T>, p: T -> bool)
    requires xs != [] && init == xs[..|xs| - 1]
    ensures (exists i | 0 <= i < |xs| :: p(xs[i]))
            <==> (exists i | 0 <= i < |init| :: p(init[i])) || p(xs[|xs| - 1])
  {
    if exists i | 0 <= i < |xs| :: p(xs[i]) {
      var i :| 0 <= i < |xs| && p(xs[i]);
      if i < |init| {
        assert init[i] == xs[i];
      }
    }
    if exists i | 0 <= i < |init| :: p(init[i]) {
      var i :| 0 <= i < |init| && p(init[i]);
      assert xs[i] == init[i];
    }
  }

  /** The same, for a prefix one element longer than another. */
  lemma ExistsPrefixStep<T>(xs: seq<T>, j: nat, p: T -> bool)
    requires j < |xs|
    ensures var longer, shorter := xs[..j + 1], xs[..j];
            (exists i | 0 <= i < |longer| :: p(longer[i]))
            <==> (exists i | 0 <= i < |shorter| :: p(shorter[i])) || p(xs[j])
  {
    assert xs[..j + 1][..j] == xs[..j];
    ExistsLast(xs[..j + 1], xs[..j], p);
  }

  /** `for item in items: if item in values: found = True; break` */
  method AnyItemIn<T(==)>(items: seq<T>, values: seq<T>) returns (found: bool)
    ensures found <==> exists x :: x in items && x in values
  {
    found := false;
    var k := 0;
    while k < |items|
      invariant 0 <= k <= |items|
      invariant !found && forall m | 0 <= m < k :: items[m] !in values
    {
      if items[k] in values {
        found := true;
        break;
      }
      k := k + 1;
    }
  }

  /** A filter whose test can fail: the elements whose test is true, in order, or the failure
      of the first element whose test fails. */
  function FilterOrFail<T, E>(xs: seq<T>, test: T -> Result<bool, E>): Result<seq<T>, E>
    decreases |xs|
  {
    if xs == [] then Success([])
    else
      match FilterOrFail(xs[..|xs| - 1], test)
      case Failure(e) => Failure(e)
      case Success(kept) =>
        match test(xs[|xs| - 1])
        case Failure(e) => Failure(e)
        case Success(b) => Success(if b then kept + [xs[|xs| - 1]] else kept)
  }

  /** Filtering a prefix one element longer. */
  lemma FilterOrFailStep<T, E>(xs: seq<T>, test: T -> Result<bool, E>, i: nat, kept: seq<T>)
    requires i < |xs| && FilterOrFail(xs[..i], test) == Success(kept)
    ensures FilterOrFail(xs[..i + 1], test)
            == match test(xs[i])
               case Failure(e) => Failure(e)
               case Success(b) => Success(if b then kept + [xs[i]] else kept)
  {
    assert xs[..i + 1][..i] == xs[..i];
  }

  /** Once a prefix fails, the whole filter fails with the same error. */
  lemma {:induction false} FilterOrFailStops<T, E>(xs: seq<T>, test: T -> Result<bool, E>, i: nat)
    requires i <= |xs| && FilterOrFail(xs[..i], test).Failure?
    ensures FilterOrFail(xs, test) == FilterOrFail(xs[..i], test)
    decreases |xs| - i
  {
    if i < |xs| {
      assert xs[..i + 1][..i] == xs[..i];
      FilterOrFailStops(xs, test, i + 1);
    } else {
      assert xs[..i] == xs;
    }
  }

  /** When no test fails, the fallible filter is the plain filter by the test's outcome. */
  lemma {:induction false} FilterOrFailTotal<T, E>(xs: seq<T>, test: T -> Result<bool, E>, p: T -> bool)
    requires forall x | x in xs :: test(x) == Success(p(x))
    ensures FilterOrFail(xs, test) == Success(Filter(xs, p))
    decreases |xs|
  {
    if xs != [] {
      var init := xs[..|xs| - 1];
      assert forall x | x in init :: x in xs;
      FilterOrFailTotal(init, test, p);
      var last := xs[|xs| - 1];
      assert last in xs;
      assert Filter(xs, p) == Filter(init, p) + (if p(last) then [last] else []);
      assert test(last) == Success(p(last));
      if p(last) {
        assert FilterOrFail(xs, test) == Success(Filter(init, p) + [last]);
      } else {
        assert FilterOrFail(xs, test) == Success(Filter(init, p));
        assert Filter(init, p) + [] == Filter(init, p);
      }
    }
  }
}
