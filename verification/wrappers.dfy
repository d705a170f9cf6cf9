/** Failure-carrying values used where the source has a null reference or
    throws an exception. */
module Wrappers {

  /** A value that may be absent: `None` plays the role of a null reference. */
  datatype Option<+T> = None | Some(value: T)

  /** The outcome of an operation that the source lets throw: `Failure`
      carries what the exception would have reported. */
  datatype Result<+R, +E> = Success(value: R) | Failure(error: E)
}
