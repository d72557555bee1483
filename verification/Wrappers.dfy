/** Optional values and results that carry either a value or an error. */
module Wrappers {

  datatype Option<+T> = None | Some(value: T)

  /** Stands for a call that returns a value or throws; usable with `:-`. */
  datatype Result<+T, +E> = Success(value: T) | Failure(error: E) {

    predicate IsFailure() {
      Failure?
    }

    function PropagateFailure<U>(): Result<U, E>
      requires Failure?
    {
      Failure(error)
    }

    function Extract(): T
      requires Success?
    {
      value
    }
  }
}
