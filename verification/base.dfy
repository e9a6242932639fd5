/** Shared wrappers: optional values, results with an error, and the
    element-wise map that Python list comprehensions perform. */
module Base {

  /** A value that may be absent (Python `None`). */
  datatype Option<T> = None | Some(value: T)

  /** The outcome of an operation that can fail with an error value. */
  datatype Result<T, E> = Success(value: T) | Failure(error: E)

  /** `[f(x) for x in xs]`: one output per input, same order. */
  function MapSeq<A, B>(f: A -> B, xs: seq<A>): (ys: seq<B>)
    ensures |ys| == |xs|
    ensures forall i :: 0 <= i < |xs| ==> ys[i] == f(xs[i])
  {
    if |xs| == 0 then [] else [f(xs[0])] + MapSeq(f, xs[1..])
  }
}
