/** The optional and fallible values shared by every component of the model. */
module Options {

  datatype Option<+T> = None | Some(value: T)

  /** The exception classes that the modelled services raise. */
  datatype Error = TypeError | ValueError | RuntimeError | LookupError | IntegrityError

  /** The outcome of an operation that may raise; a raised error carries no value. */
  datatype Result<+T> = Ok(value: T) | Err(error: Error) {
    predicate IsFailure() {
      Err?
    }

    function PropagateFailure<U>(): (r: Result<U>)
      requires Err?
    {
      Err(error)
    }

    function Extract(): T
      requires Ok?
    {
      value
    }
  }
}
