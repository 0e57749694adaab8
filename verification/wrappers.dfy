/** Option and Result, the two failure-compatible wrappers the model uses for
    Go's nil pointers and (value, error) results. */
module Wrappers {

  datatype Option<+T> = None | Some(value: T)

  datatype Result<+T, +E> = Success(value: T) | Failure(error: E) {

    predicate IsFailure() {
      Failure?
    }

    function PropagateFailure<U>(): Result<U, E>
      requires Failure?
    {
      Failure(error)
    }

    function Extract(): T
      requires Success?
    {
      value
    }
  }

  /** Prepends `x` to a successful list result and passes a failure through. */
  function Prepend<T, E>(x: T, r: Result<seq<T>, E>): Result<seq<T>, E>
  {
    match r
    case Success(xs) => Success([x] + xs)
    case Failure(e) => Failure(e)
  }

  /** Prepends a whole prefix; used in loop invariants of the methods that
      append to a list while walking their input. */
  function PrependAll<T, E>(xs: seq<T>, r: Result<seq<T>, E>): Result<seq<T>, E>
  {
    match r
    case Success(ys) => Success(xs + ys)
    case Failure(e) => Failure(e)
  }

  lemma PrependNothing<T, E>(r: Result<seq<T>, E>)
    ensures PrependAll([], r) == r
  {
    if r.Success? {
      assert [] + r.value == r.value;
    }
  }

  /** One more element moved from the pending result into the prefix. */
  lemma PrependOneMore<T, E>(acc: seq<T>, x: T, r: Result<seq<T>, E>)
    ensures PrependAll(acc, Prepend(x, r)) == PrependAll(acc + [x], r)
  {
    if r.Success? {
      assert acc + ([x] + r.value) == (acc + [x]) + r.value;
    }
  }
}
