/** Failure-compatible wrappers shared by the codec modules.

    The Python library signals failures by raising exceptions; the model
    returns them as values instead, one `Error` constructor per exception
    class the core can raise. */
module Results {

  /** The exception classes the modelled code raises. */
  datatype Error =
    | KeyError(key: string)             // enum lookup by an unknown name
    | ValueError(reason: string)        // enum lookup by an unknown value, bad hex digit
    | IndexError(index: nat)            // write past the end of a ctypes array
    | AttributeError(attribute: string) // attribute missing on the object
    | TypeError(reason: string)         // a setter called with the wrong arity

  datatype Option<+T> = None | Some(value: T)

  datatype Result<+T> = Success(value: T) | Failure(error: Error) {

    predicate IsFailure() {
      Failure?
    }

    function PropagateFailure<U>(): Result<U>
      requires Failure?
    {
      Failure(error)
    }

    function Extract(): T
      requires Success?
    {
      value
    }
  }
}
