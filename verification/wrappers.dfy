/** Failure-carrying datatypes shared by the other modules. */
module Wrappers {

  /** A value that may be absent; stands for a pointer that may be `nullptr`. */
  datatype Option<+T> = None | Some(value: T)

  /** The outcome of an operation that may throw instead of returning. */
  datatype Result<+R, +E> = Success(value: R) | Failure(error: E)
}
