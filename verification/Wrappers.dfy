/** The two result shapes every other module uses. */
module Wrappers {
  datatype Option<+T> = None | Some(value: T)

  datatype Result<+T, +E> = Success(value: T) | Failure(error: E)

  function Min(a: nat, b: nat): (r: nat)
    ensures r <= a && r <= b && (r == a || r == b)
  {
    if a < b then a else b
  }

  function Max(a: nat, b: nat): (r: nat)
    ensures a <= r && b <= r && (r == a || r == b)
  {
    if a < b then b else a
  }
}
