/** Values that stand for Python's "returns a value or raises an exception". */
module Basics {

  datatype Option<+T> = None | Some(value: T)

  /** Ok carries the value a Python call returned, Err the exception it raised. */
  datatype Result<+T, +E> = Ok(value: T) | Err(error: E)

  /** The result of doing `xs` first and then whatever `rest` does:
      the items are prepended to a successful list, an exception wins. */
  function Prepend<T, E>(xs: seq<T>, rest: Result<seq<T>, E>): (r: Result<seq<T>, E>)
    ensures r.Ok? <==> rest.Ok?
    ensures r.Ok? ==> |r.value| == |xs| + |rest.value| && r.value[..|xs|] == xs
  {
    match rest
    case Ok(ys) => Ok(xs + ys)
    case Err(e) => Err(e)
  }

  lemma PrependAssociates<T, E>(xs: seq<T>, ys: seq<T>, rest: Result<seq<T>, E>)
    ensures Prepend(xs, Prepend(ys, rest)) == Prepend(xs + ys, rest)
  {
    if rest.Ok? {
      assert xs + (ys + rest.value) == (xs + ys) + rest.value;
    }
  }
}
