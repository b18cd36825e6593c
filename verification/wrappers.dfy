/** Nullable values and outcomes of calls that may throw. */
module Wrappers {

  /** A JavaScript value that may be `null` (None) or present (Some). */
  datatype Option<+T> = None | Some(value: T)

  /** The outcome of a call that either returns a value or throws an error. */
  datatype Result<+R, +E> = Success(value: R) | Failure(error: E)
}
