/** Failure-carrying values shared by every module of the model. */
module Wrappers {

  /** A Go pointer or optional value: `None` stands for `nil`. */
  datatype Option<+T> = None | Some(value: T)

  /** A Go `(value, error)` pair in which exactly one side is meaningful. */
  datatype Result<+T, +E> = Success(value: T) | Failure(error: E)
}
