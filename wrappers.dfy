/** Option and Result values standing in for Go's nil pointers and `error` returns. */
module Wrappers {

  datatype Option<+T> = None | Some(value: T)

  datatype Result<+R, +E> = Ok(value: R) | Err(error: E)

  /** A Go `error` that is either nil (`Pass`) or set (`Fail`). */
  datatype Outcome<+E> = Pass | Fail(error: E)

}
