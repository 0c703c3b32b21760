/** Optional values and the exceptions the service raises, as values. */
module Wrappers {

  /** A reference that may be null: `None` stands for C#'s `null`. */
  datatype Option<+T> = None | Some(value: T)

  /** The outcome of an operation that may throw. */
  datatype Result<+R, +E> = Success(value: R) | Failure(error: E) {
    predicate IsFailure() {
      Failure?
    }

    function PropagateFailure<U>(): Result<U, E>
      requires Failure?
    {
      Failure(error)
    }

    function Extract(): R
      requires Success?
    {
      value
    }
  }

  /** The two exception types the core throws, each with its message. */
  datatype Exception =
    | ArgumentException(message: string)
    | InvalidOperationException(message: string)
}
