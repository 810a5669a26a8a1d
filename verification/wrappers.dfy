/** The two failure-compatible shapes the model needs: a value that may be
    absent (Java's `null`) and a computation that may throw. */
module Wrappers {

  /** `None` stands for a Java `null` reference. */
  datatype Option<+T> = None | Some(value: T)

  /** `Failure` stands for an exception propagating out of a call. */
  datatype Result<+T, +E> = Success(value: T) | Failure(error: E)
}
