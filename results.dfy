/** Optional values and the success-or-error outcome every validation step returns. */
module Results {

  datatype Option<+T> = None | Some(value: T)

  /** The outcome of a step that either yields a value or stops the whole
      validation with an error (the source throws). Failure-compatible, so
      `:-` propagates the first error exactly as a `throw` would. */
  datatype Result<+T, +E> = Ok(value: T) | Err(error: E) {

    predicate IsFailure() {
      Err?
    }

    function PropagateFailure<U>(): Result<U, E>
      requires Err?
    {
      Err(error)
    }

    function Extract(): T
      requires Ok?
    {
      value
    }
  }

  /** Wraps the value of a successful step, for optional steps that may not run. */
  function Lift<T, E>(r: Result<T, E>): Result<Option<T>, E>
  {
    match r
    case Ok(v) => Ok(Some(v))
    case Err(e) => Err(e)
  }
}
