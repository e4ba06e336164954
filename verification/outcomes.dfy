/** Python's exceptions and `None` as values. A dictionary lookup that
    would raise `KeyError` gives a `Failure` carrying the reason; a value
    that may be `None` is an `Option`. */
module Outcomes {

  datatype Option<T> = None | Some(value: T)

  /** The members below let `:-` stop at the first `Failure`, the way the
      first raised exception ends a Python function. */
  datatype Result<T, E> = Success(value: T) | Failure(error: E) {

    predicate IsFailure() {
      Failure?
    }

    function PropagateFailure<U>(): Result<U, E>
      requires Failure?
    {
      Failure(error)
    }

    function Extract(): T
      requires Success?
    {
      value
    }
  }
}
