/** Failure-compatible wrappers used throughout the model: an absent value (`Option`)
    and a computation that either produces a value or stops the load with an error (`Result`). */
module Results {

  /** A value that may be missing, such as a dictionary lookup that would raise `KeyError`. */
  datatype Option<+T> = None | Some(value: T)

  /** Either the computed value or the error that aborts the whole load. */
  datatype Result<+R, +E> = Success(value: R) | Failure(error: E) {

    predicate IsFailure() {
      Failure?
    }

    function PropagateFailure<U>(): Result<U, E>
      requires Failure?
    {
      Failure(error)
    }

    function Extract(): R
      requires Success?
    {
      value
    }
  }
}
