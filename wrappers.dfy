/** Option and Result: the value-or-nil and value-or-error pairs that Go functions return. */
module Wrappers {

  /** A Go pointer or optional value: `None` is nil. */
  datatype Option<+T> = None | Some(value: T)

  /** A Go `(value, error)` pair in which exactly one side is meaningful. */
  datatype Result<+T, +E> = Ok(value: T) | Err(error: E)
}
