/** Option and Result values standing in for Java's nullable references and
    thrown exceptions. */
module Wrappers {

  /** A nullable reference: `None` is Java's `null`. */
  datatype Option<+T> = None | Some(value: T)

  /** The outcome of a call that either returns a value or throws. */
  datatype Result<+T, +E> = Success(value: T) | Failure(error: E)

  /** The outcome of a `void` call that either returns or throws. */
  datatype Outcome<+E> = Pass | Fail(error: E)
}
