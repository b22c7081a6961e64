/** Failure-compatible result types shared by every module of the model. */
module Wrappers {

  /** An optional value: a JavaScript `undefined` slot or a present one. */
  datatype Option<+T> = None | Some(value: T)

  /** The outcome of an operation that can throw in the source. */
  datatype Result<+R, +E> = Success(value: R) | Failure(error: E) {
    predicate IsFailure() {
      Failure?
    }

    function PropagateFailure<U>(): Result<U, E>
      requires Failure?
    {
      Failure(error)
    }

    function Extract(): R
      requires Success?
    {
      value
    }
  }
}
