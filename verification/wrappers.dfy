/** Option and Result, the two shapes in which the order service returns
    "a value or nothing" and "a value or a Go error". */
module Wrappers {

  datatype Option<+T> = None | Some(value: T)

  /** Go's `(T, error)` pair: exactly one of the two is meaningful. */
  datatype Result<+T, +E> = Ok(value: T) | Err(error: E)
}
