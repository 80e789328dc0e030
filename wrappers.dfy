/** Failure-carrying values used wherever the library throws or returns null. */
module Wrappers {

  /** A value that may be absent (a C# `null` reference). */
  datatype Option<+T> = None | Some(value: T)

  /** The outcome of an operation that either yields a value or fails. */
  datatype Result<+R, +E> = Success(value: R) | Failure(error: E)

  /** The outcome of an operation that yields nothing but may fail. */
  datatype Outcome<+E> = Pass | Fail(error: E)
}
