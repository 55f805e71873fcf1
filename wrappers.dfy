/** Failure-carrying return values, used where the TypeScript members throw. */
module Wrappers {

  /** An argument that may be omitted by the caller. */
  datatype Option<+T> = None | Some(value: T)

  /** A value, or the error the TypeScript member would have thrown instead. */
  datatype Result<+T, +E> = Success(value: T) | Failure(error: E)

  /** The outcome of a setter, which returns nothing but may throw. */
  datatype Outcome<+E> = Pass | Fail(error: E)
}
