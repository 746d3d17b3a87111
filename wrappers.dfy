/** Option and Result values for the source's `Option<T>` and its fatal or recoverable errors. */
module Wrappers {

  datatype Option<+T> = None | Some(value: T)

  /** A Failure stands for a `panic!`, `expect` or `unwrap` on a missing value in the source, or for an `Err` it returns. */
  datatype Result<+T, +E> = Success(value: T) | Failure(error: E)
}
