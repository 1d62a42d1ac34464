/** Failure-carrying result types used for the error paths of the scripts. */
module Wrappers {

  datatype Option<+T> = None | Some(value: T)

  datatype Result<+T, +E> = Success(value: T) | Failure(error: E)

  /** A loop that converts each element in turn and stops at the first conversion that
      fails: the converted list, or that failure. */
  function MapAll<A, B, E>(xs: seq<A>, f: A -> Result<B, E>): Result<seq<B>, E>
    decreases |xs|
  {
    if xs == [] then Success([])
    else
      match MapAll(xs[..|xs| - 1], f)
      case Failure(e) => Failure(e)
      case Success(ys) =>
        match f(xs[|xs| - 1])
        case Failure(e) => Failure(e)
        case Success(y) => Success(ys + [y])
  }

  /** The conversion succeeds exactly when every element converts, giving one result per
      element in order; otherwise it reports the failure of the first element that does not. */
  lemma {:induction false} MapAllSpec<A, B, E>(xs: seq<A>, f: A -> Result<B, E>)
    ensures MapAll(xs, f).Success? <==> forall k | 0 <= k < |xs| :: f(xs[k]).Success?
    ensures MapAll(xs, f).Success? ==>
              |MapAll(xs, f).value| == |xs| && forall k | 0 <= k < |xs| :: MapAll(xs, f).value[k] == f(xs[k]).value
    ensures MapAll(xs, f).Failure? ==>
              exists k | 0 <= k < |xs| :: f(xs[k]) == Failure(MapAll(xs, f).error) && forall j | 0 <= j < k :: f(xs[j]).Success?
    decreases |xs|
  {
    if xs != [] {
      var init := xs[..|xs| - 1];
      MapAllSpec(init, f);
      assert forall k | 0 <= k < |init| :: init[k] == xs[k];
    }
  }

  /** Once a prefix fails, the whole list fails with the same error. */
  lemma {:induction false} MapAllStops<A, B, E>(xs: seq<A>, f: A -> Result<B, E>, i: nat)
    requires i <= |xs| && MapAll(xs[..i], f).Failure?
    ensures MapAll(xs, f) == MapAll(xs[..i], f)
    decreases |xs| - i
  {
    if i < |xs| {
      assert xs[..i + 1][..i] == xs[..i];
      MapAllStops(xs, f, i + 1);
    } else {
      assert xs[..i] == xs;
    }
  }

  /** Converting a prefix one element longer. */
  lemma MapAllStep<A, B, E>(xs: seq<A>, f: A -> Result<B, E>, i: nat, ys: seq<B>)
    requires i < |xs| && MapAll(xs[..i], f) == Success(ys)
    ensures MapAll(xs[..i + 1], f) == if f(xs[i]).Failure? then Failure(f(xs[i]).error) else Success(ys + [f(xs[i]).value])
  {
    assert xs[..i + 1][..i] == xs[..i];
  }

  /** A list whose every element converts converts to the list of the results. */
  lemma {:induction false} MapAllSucceeds<A, B, E>(xs: seq<A>, f: A -> Result<B, E>, ys: seq<B>)
    requires |xs| == |ys| && forall k | 0 <= k < |xs| :: f(xs[k]) == Success(ys[k])
    ensures MapAll(xs, f) == Success(ys)
    decreases |xs|
  {
    if xs != [] {
      var n := |xs| - 1;
      MapAllSucceeds(xs[..n], f, ys[..n]);
      assert ys == ys[..n] + [ys[n]];
    }
  }
}
