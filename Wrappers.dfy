/** Option and Result: the absent value (JavaScript `null`, Python `None`) and the error path. */
module Wrappers {

  datatype Option<+T> = None | Some(value: T)

  datatype Result<+R, +E> = Success(value: R) | Failure(error: E)
}
