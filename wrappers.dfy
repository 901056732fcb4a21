/** Failure-carrying result types shared by the whole model: a Python
    function that either returns a value or raises is modelled as a
    function returning one of these. */
module Wrappers {

  datatype Option<+T> = None | Some(value: T) {
    function GetOr(default: T): T {
      match this
      case Some(v) => v
      case None => default
    }
  }

  /** The value a Python function returns, or the exception it raises. */
  datatype Result<+T, +E> = Ok(value: T) | Err(error: E)

  /** The outcome of a Python function that returns nothing or raises. */
  datatype Outcome<+E> = Pass | Fail(error: E)

  function Min(a: int, b: int): int {
    if a <= b then a else b
  }
}
