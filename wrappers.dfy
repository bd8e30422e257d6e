/** Failure-carrying results used in place of Java's null and checked exceptions. */
module Wrappers {

  /** A value that may be absent (Java's nullable reference). */
  datatype Option<+T> = None | Some(value: T)

  /** A check that either passes or throws `error`. */
  datatype Outcome<+E> = Pass | Fail(error: E)

  /** A computation that either returns `value` or throws `error`. */
  datatype Result<+R, +E> = Success(value: R) | Failure(error: E)
}
