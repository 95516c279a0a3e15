/** Option and Result, the two failure-compatible wrappers the model uses:
    Option for the nullable pointers and std::optional of the source,
    Result for its early returns that carry a diagnostic string. */
module Wrappers {

  datatype Option<+T> = None | Some(value: T) {
    predicate IsFailure() { None? }

    function PropagateFailure<U>(): Option<U>
      requires None?
    {
      None
    }

    function Extract(): T
      requires Some?
    {
      value
    }
  }

  /** A value, or the diagnostic message of the first check that failed. */
  datatype Result<+T> = Ok(value: T) | Err(message: string) {
    predicate IsFailure() { Err? }

    function PropagateFailure<U>(): Result<U>
      requires Err?
    {
      Err(message)
    }

    function Extract(): T
      requires Ok?
    {
      value
    }
  }

  /** Turns a missing value into the given diagnostic. */
  function Need<T>(o: Option<T>, message: string): Result<T>
  {
    match o
    case Some(v) => Ok(v)
    case None => Err(message)
  }
}
