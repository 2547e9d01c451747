/** Failure-compatible wrappers used across the model. */
module Results {

  /** A value that may be absent, such as a Go map lookup that misses. */
  datatype Option<+T> = None | Some(value: T)

  /** The outcome of a stage that can fail: the value, or the error that stopped it. */
  datatype Result<+T, +E> = Ok(value: T) | Err(error: E) {

    predicate IsFailure() {
      Err?
    }

    function PropagateFailure<U>(): Result<U, E>
      requires Err?
    {
      Err(error)
    }

    function Extract(): T
      requires Ok?
    {
      value
    }
  }
}
