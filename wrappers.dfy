/** Optional values and outcomes shared by the modules of the model. */
module Wrappers {
  /** A value that may be absent (TypeScript's `T | null` or `T | undefined`). */
  datatype Option<+T> = None | Some(value: T)

  /** The outcome of an operation that either yields a value or throws an error. */
  datatype Result<+R, +E> = Success(value: R) | Failure(error: E)
}
