/** Failure-carrying values shared by the whole model. A Java reference that may be
    `null` is an `Option`; a Java call that either returns or throws is a `Result`
    (or an `Outcome` when it returns nothing). */
module Wrappers {

  /** A possibly-null Java reference. */
  datatype Option<+T> = None | Some(value: T)

  /** A value, or the exception that was thrown instead of producing it. */
  datatype Result<+T, +E> = Success(value: T) | Failure(error: E) {

    predicate IsFailure() {
      Failure?
    }

    function PropagateFailure<U>(): Result<U, E>
      requires Failure?
    {
      Failure(error)
    }

    function Extract(): T
      requires Success?
    {
      value
    }
  }

  /** A `void` Java call: it returns normally, or throws `error`. */
  datatype Outcome<+E> = Pass | Fail(error: E)
}
