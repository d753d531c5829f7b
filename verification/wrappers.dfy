/** Failure-carrying datatypes shared by every module of the model. */
module Wrappers {

  /** An optional value: Go's "comma ok" lookups and absent fields. */
  datatype Option<+T> = None | Some(value: T)

  /** Either a value or an error: the `(value, error)` return pairs of the Go code. */
  datatype Result<+T, +E> = Success(value: T) | Failure(error: E)
}
