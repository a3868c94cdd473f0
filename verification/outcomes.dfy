/**
 * Optional values and failure-carrying results, shared by every module of
 * the model. `Result` supports Dafny's `:-` so that a failed lookup aborts
 * the rest of a construction, as an uncaught exception does in the Java code.
 */
module Outcomes {

  /** A value that may be absent: a failed lookup, a page that sent no link. */
  datatype Option<+T> = None | Some(value: T)

  /** The outcome of an operation that may throw in the Java code. */
  datatype Result<+R, +E> = Success(value: R) | Failure(error: E) {
    predicate IsFailure() {
      Failure?
    }

    function PropagateFailure<U>(): Result<U, E>
      requires Failure?
    {
      Failure(error)
    }

    function Extract(): R
      requires Success?
    {
      value
    }
  }
}
