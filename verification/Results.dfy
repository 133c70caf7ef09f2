/** Failure-compatible values shared by every module. */
module Results {
  datatype Option<+T> = None | Some(value: T)

  /** A computed value, or the reason for which the source raises. */
  datatype Result<+T, +E> = Ok(value: T) | Refused(reason: E) {
    predicate IsFailure() { Refused? }

    function PropagateFailure<U>(): Result<U, E>
      requires Refused?
    {
      Refused(reason)
    }

    function Extract(): T
      requires Ok?
    {
      value
    }
  }

  /** The outcome of one requirement that carries no value. */
  datatype Outcome<+E> = Pass | Fail(reason: E) {
    predicate IsFailure() { Fail? }

    function PropagateFailure<U>(): Result<U, E>
      requires Fail?
    {
      Refused(reason)
    }
  }

  function Need<E>(condition: bool, reason: E): Outcome<E> {
    if condition then Pass else Fail(reason)
  }
}
