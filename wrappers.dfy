/** Failure-compatible result types shared by every module of the model.
    Python exceptions become `Err` values that name the exception class. */
module Wrappers {

  datatype Option<+T> = None | Some(value: T)

  /** The Python exception classes the modelled code raises or catches. */
  datatype ErrorKind =
    | ValueError
    | TypeError
    | KeyError
    | IndexError
    | AttributeError
    | AssertionError
    | ArgumentTypeError
    | ImproperlyConfigured
    | IntegrityError
    | DatabaseError
    | GenericException

  /** A raised exception: its class and its message. */
  datatype Error = Error(kind: ErrorKind, message: string)

  datatype Result<+T> = Ok(value: T) | Err(error: Error) {

    predicate IsFailure() {
      Err?
    }

    function PropagateFailure<U>(): Result<U>
      requires Err?
    {
      Err(error)
    }

    function Extract(): T
      requires Ok?
    {
      value
    }
  }

  function Raise<T>(kind: ErrorKind, message: string): Result<T> {
    Err(Error(kind, message))
  }
}
