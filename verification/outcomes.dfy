/** Failure-compatible wrappers shared by every module of the model.
    `Option` stands for the source's `null`/`undefined` results and `Result`
    for the runs that end in a thrown exception instead of a value. */
module Outcomes {

  datatype Option<+T> = None | Some(value: T)

  datatype Result<+T, +E> = Success(value: T) | Failure(error: E) {

    predicate IsFailure() {
      Failure?
    }

    function PropagateFailure<U>(): Result<U, E>
      requires Failure?
    {
      Failure(error)
    }

    function Extract(): T
      requires Success?
    {
      value
    }
  }
}
