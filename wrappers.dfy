/** Option and Result, used wherever the source returns an error code, NULL,
    or raises a Python exception. */
module Wrappers {

  datatype Option<+T> = None | Some(value: T)

  datatype Result<+T, +E> = Success(value: T) | Failure(error: E)
}
