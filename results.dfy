/** Optional values, the exceptions the converter raises, and a failure-compatible result. */
module Results {

  datatype Option<+T> = None | Some(value: T)

  /** The Python exceptions the extraction code can raise, by kind. */
  datatype Failure =
    | AssertionError(what: string)
    | RuntimeError(message: string)
    | KeyError(key: string)
    | IndexError
    | AttributeError(attribute: string)
    | StopIteration

  datatype Result<+T> = Ok(value: T) | Err(error: Failure) {

    predicate IsFailure() {
      Err?
    }

    function PropagateFailure<U>(): Result<U>
      requires Err?
    {
      Err(error)
    }

    function Extract(): T
      requires Ok?
    {
      value
    }
  }
}
