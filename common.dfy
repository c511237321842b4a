/**
 * Values, the Python exceptions of the modelled code, and the Option/Result
 * wrappers that stand for "returns None" and "raises".
 */
module Common {

  /** One cell of a pandas frame: a float (modelled as `real`), a string, or NaN/None. */
  datatype Value = Num(x: real) | Str(s: string) | Missing

  datatype Option<T> = None | Some(value: T)

  /** The exceptions the modelled code raises itself or lets through from a library call. */
  datatype Error =
    | FileNotFoundError(path: string)
    | KeyError(key: string)
    | ValueError(message: string)
    | TypeError(message: string)
    | UnboundLocalError(name: string)
    | LibraryError(message: string)

  /** The value a Python call returns, or the exception it raises. */
  datatype Result<T> = Success(value: T) | Failure(error: Error) {
    predicate IsFailure() { Failure? }

    function PropagateFailure<U>(): Result<U>
      requires Failure?
    {
      Failure(error)
    }

    function Extract(): T
      requires Success?
    {
      value
    }
  }
}
