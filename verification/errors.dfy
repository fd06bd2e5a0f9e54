/** Python exceptions raised by the modelled code, and the Option/Result types that carry them. */
module Errors {

  /** The exception classes the modelled code can raise. */
  datatype PyError =
    | IndexError(what: string)            // pop from an empty list
    | KeyError(key: string)               // dict or archive lookup of a missing name
    | AttributeError(attribute: string)   // attribute read before it is set, or never defined
    | AssertionError(message: string)
    | NameError(name: string)             // a global name that is never defined
    | RuntimeError(message: string)
    | IOError(message: string)
    | UnsupportedOperation(message: string)

  /** Python's `None` or a value. */
  datatype Option<+T> = None | Some(value: T)

  /** A call that either returns a value or raises. */
  datatype Result<+T> = Ok(value: T) | Err(error: PyError) {
    predicate IsFailure() {
      Err?
    }

    function PropagateFailure<U>(): Result<U>
      requires Err?
    {
      Err(error)
    }

    function Extract(): T
      requires Ok?
    {
      value
    }
  }
}
