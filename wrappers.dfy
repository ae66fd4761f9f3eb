/** Option and result types used across the model. */
module Wrappers {

  /** A value that may be absent (a missing file, a missing column). */
  datatype Option<+T> = None | Some(value: T)

  /** Either a value or the error the source would raise. */
  datatype Result<+R, +E> = Success(value: R) | Failure(error: E)
}
