/** Failure-carrying datatypes shared by every module: `Option` stands for a
    Java reference that may be null, `Result` for a call that may throw. */
module Wrappers {

  datatype Option<+T> = None | Some(value: T) {

    /** The value, or `default` when absent. */
    function GetOr(default: T): T {
      match this
      case Some(v) => v
      case None => default
    }
  }

  /** The Java exception classes the modelled code can raise. */
  datatype Exception =
    | NullPointer
    | IllegalArgument(message: string)
    | IllegalState(message: string)
    | NumberFormat
    | ClassCast
    | JsonParsing
    | Runtime(message: string)

  datatype Result<+R> = Ok(value: R) | Err(error: Exception) {

    predicate IsFailure() {
      Err?
    }

    function PropagateFailure<U>(): Result<U>
      requires Err?
    {
      Err(error)
    }

    function Extract(): R
      requires Ok?
    {
      value
    }
  }
}
