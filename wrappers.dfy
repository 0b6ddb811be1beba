/** Value wrappers shared by the other modules. */
module Wrappers {

  /** An optional value: stands for a Java reference that may be null. */
  datatype Option<+T> = None | Some(value: T)

  /** A value or the exception that was thrown instead of returning one. */
  datatype Result<+T, +E> = Success(value: T) | Failure(error: E)

  /** Normal completion of a void method, or the exception it threw. */
  datatype Outcome<+E> = Pass | Fail(error: E)
}
