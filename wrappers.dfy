/** Optional values and results with an error, used for parsed inputs and
    for the outcome of validation. */
module Wrappers {

  /** A parsed integer field: `None` stands for JavaScript's `NaN`. */
  datatype Option<+T> = None | Some(value: T)

  datatype Result<+T, +E> = Success(value: T) | Failure(error: E)
}
