/** Results of operations that the source ends with a value, with nothing, or by throwing; the larger of two numbers. */
module Wrappers {

  datatype Option<+T> = None | Some(value: T)

  datatype Result<+T, +E> = Success(value: T) | Failure(error: E)

  function Max(a: int, b: int): int {
    if a > b then a else b
  }
}
