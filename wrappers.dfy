/** Nullable values and failing computations, as the Kotlin source expresses
    them with `T?` and thrown exceptions. */
module Wrappers {

  /** `Some(v)` for a present value, `None` for Kotlin's `null`. */
  datatype Option<+T> = None | Some(value: T) {
    predicate IsFailure() { None? }

    function PropagateFailure<U>(): Option<U>
      requires None?
    {
      None
    }

    function Extract(): T
      requires Some?
    {
      value
    }
  }

  /** `Success(v)` for a normal return, `Failure(msg)` for an exception raised
      by `error(…)`, `require(…)` or a failed lookup. */
  datatype Result<+R> = Success(value: R) | Failure(error: string) {
    predicate IsFailure() { Failure? }

    function PropagateFailure<U>(): Result<U>
      requires Failure?
    {
      Failure(error)
    }

    function Extract(): R
      requires Success?
    {
      value
    }
  }
}
