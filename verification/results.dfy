/** Failure-compatible result type standing in for Go's `(value, error)` pairs.
    The error carries the text `err.Error()` would produce. */
module Results {

  datatype Result<+T> = Ok(value: T) | Err(error: string) {

    predicate IsFailure() {
      Err?
    }

    function PropagateFailure<U>(): Result<U>
      requires Err?
    {
      Err(error)
    }

    function Extract(): T
      requires Ok?
    {
      value
    }
  }

  /** A Go function that returns only an `error`: nil (Pass) or an error text. */
  datatype Outcome = Pass | Fail(error: string)
}
