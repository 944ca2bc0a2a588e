/** Option and Result, used for Python's None and for exceptions that propagate. */
module Wrappers {

  datatype Option<+T> = None | Some(value: T)

  datatype Result<+T, +E> = Success(value: T) | Failure(error: E)

  /** Applies `f` to each element in order; the first failure is the result. */
  function MapAll<A, B, E>(f: A -> Result<B, E>, xs: seq<A>): Result<seq<B>, E>
    decreases |xs|
  {
    if xs == [] then Success([])
    else match f(xs[0])
      case Failure(e) => Failure(e)
      case Success(y) =>
        match MapAll(f, xs[1..])
        case Failure(e) => Failure(e)
        case Success(ys) => Success([y] + ys)
  }

  /** The k-th result of a successful MapAll is f applied to the k-th element. */
  lemma MapAllAt<A, B, E>(f: A -> Result<B, E>, xs: seq<A>, k: nat)
    requires MapAll(f, xs).Success? && (k < |xs| || k < |MapAll(f, xs).value|)
    ensures |MapAll(f, xs).value| == |xs| && Success(MapAll(f, xs).value[k]) == f(xs[k])
  {
    MapAllPointwise(f, xs);
  }

  /** MapAll over two elements that both succeed. */
  lemma MapAllPair<A, B, E>(f: A -> Result<B, E>, a: A, b: A)
    requires f(a).Success? && f(b).Success?
    ensures MapAll(f, [a, b]) == Success([f(a).value, f(b).value])
  {
    assert [a, b][1..] == [b];
    assert [b][1..] == [];
    assert MapAll(f, [b][1..]) == Success([]);
    assert [f(b).value] + [] == [f(b).value];
    assert MapAll(f, [b]) == Success([f(b).value]);
    assert [f(a).value] + [f(b).value] == [f(a).value, f(b).value];
  }

  /** MapAll succeeds exactly when `f` succeeds on every element, giving each result in place. */
  lemma {:induction false} MapAllPointwise<A, B, E>(f: A -> Result<B, E>, xs: seq<A>)
    ensures MapAll(f, xs).Success? <==> forall k :: 0 <= k < |xs| ==> f(xs[k]).Success?
    ensures MapAll(f, xs).Success? ==>
              |MapAll(f, xs).value| == |xs| && forall k :: 0 <= k < |xs| ==> Success(MapAll(f, xs).value[k]) == f(xs[k])
    decreases |xs|
  {
    if xs != [] {
      MapAllPointwise(f, xs[1..]);
      assert forall k :: 1 <= k < |xs| ==> xs[k] == xs[1..][k - 1];
    }
  }

  /** When `f` succeeds before position `k` and fails at `k`, MapAll fails with that error. */
  lemma {:induction false} MapAllFirstFailure<A, B, E>(f: A -> Result<B, E>, xs: seq<A>, k: nat)
    requires k < |xs| && f(xs[k]).Failure?
    requires forall j :: 0 <= j < k ==> f(xs[j]).Success?
    ensures MapAll(f, xs) == Failure(f(xs[k]).error)
    decreases k
  {
    if k > 0 {
      assert forall j :: 0 <= j < k - 1 ==> xs[1..][j] == xs[j + 1];
      MapAllFirstFailure(f, xs[1..], k - 1);
    }
  }
}
