/** Option and Result, the two failure-compatible wrappers the model uses.
    A Python `raise Exception(msg)` becomes `Err(msg)`. */
module Wrappers {

  datatype Option<+T> = None | Some(value: T)

  datatype Result<+T> = Ok(value: T) | Err(msg: string) {
    predicate IsFailure() {
      Err?
    }

    function PropagateFailure<U>(): Result<U>
      requires Err?
    {
      Err(msg)
    }

    function Extract(): T
      requires Ok?
    {
      value
    }
  }

  /** A list result with `acc` in front of its value; a failure stays. */
  function Prepend<T>(acc: seq<T>, r: Result<seq<T>>): Result<seq<T>> {
    match r
    case Ok(v) => Ok(acc + v)
    case Err(m) => Err(m)
  }

  lemma PrependNil<T>(r: Result<seq<T>>)
    ensures Prepend([], r) == r
  {
    if r.Ok? {
      assert [] + r.value == r.value;
    }
  }

  lemma PrependTwice<T>(acc: seq<T>, b: seq<T>, r: Result<seq<T>>)
    ensures Prepend(acc, Prepend(b, r)) == Prepend(acc + b, r)
  {
    if r.Ok? {
      assert acc + (b + r.value) == acc + b + r.value;
    }
  }
}
