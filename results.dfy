/** The outcomes of the add-on's operations: a value, or the Python exception
    that the operation would raise instead. */
module Results {

  /** The exceptions the modelled code can raise. */
  datatype Error =
    | KeyError(key: string)       // a dict lookup `d[key]` of a missing key
    | TypeError(message: string)  // a call with a missing positional argument

  datatype Result<+T> = Ok(value: T) | Err(error: Error) {

    predicate IsFailure() {
      Err?
    }

    function PropagateFailure<U>(): Result<U>
      requires Err?
    {
      Err(error)
    }

    function Extract(): T
      requires Ok?
    {
      value
    }
  }

  datatype Option<+T> = None | Some(value: T)
}
