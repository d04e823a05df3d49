/** Option and Result, the two outcome shapes the model needs:
    Option stands for Go's `error` (None is nil), Result for a call into
    a library that returns either a value or an error. */
module Wrappers {

  datatype Option<+T> = None | Some(value: T)

  datatype Result<+R, +E> = Success(value: R) | Failure(error: E)
}
