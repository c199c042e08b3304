/** The result types and the small functions that several modules share. */
module Wrappers {

  datatype Option<+T> = None | Some(value: T)

  /** A call that returns a value, or raises with a reason. */
  datatype Result<+T, +E> = Ok(value: T) | Err(error: E)

  function Max(a: int, b: int): int { if a < b then b else a }

  function Map<L, K>(f: L -> K, items: seq<L>): (r: seq<K>)
    ensures |r| == |items| && forall i | 0 <= i < |r| :: r[i] == f(items[i])
  {
    seq(|items|, i requires 0 <= i < |items| => f(items[i]))
  }
}
