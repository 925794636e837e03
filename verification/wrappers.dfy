/** Failure-carrying return values shared by every module of the model. */
module Wrappers {

  /** A value that may be absent (Python `None`, JavaScript `undefined`). */
  datatype Option<+T> = None | Some(value: T)

  /** The value an operation returns, or the exception it raises instead. */
  datatype Result<+T, +E> = Ok(value: T) | Err(error: E) {
    predicate IsFailure() {
      Err?
    }

    function PropagateFailure<U>(): Result<U, E>
      requires Err?
    {
      Err(error)
    }

    function Extract(): T
      requires Ok?
    {
      value
    }
  }

  /** The Python exceptions the modelled code can raise and does not catch. */
  datatype PyError =
    | KeyError(key: string)   // `d[key]` on a dict without `key`
    | TypeError               // subscripting something that is not a dict
    | IndexError              // `xs[0]` on an empty list
    | ValueError              // `time.sleep` with a negative length
}
