/** Failure-compatible results for the exceptions the engine raises. */
module Wrappers {

  /** The Python exception classes the modelled code can raise. */
  datatype Error =
    | ValueError
    | KeyError
    | TypeError
    | AttributeError
    | UnboundLocalError
    | IndexError

  datatype Option<+T> = None | Some(value: T)

  /** Either a value or the exception that replaced it. */
  datatype Result<+T> = Ok(value: T) | Err(error: Error) {

    predicate IsFailure()
    {
      Err?
    }

    function PropagateFailure<U>(): Result<U>
      requires Err?
    {
      Err(error)
    }

    function Extract(): T
      requires Ok?
    {
      value
    }
  }
}
