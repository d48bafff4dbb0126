/** Option and Result, and the Java exceptions that the modelled code raises. */
module Wrappers {

  datatype Option<T> = None | Some(value: T)
  {
    predicate IsSome() { Some? }
    function GetOr(default: T): T { if Some? then value else default }
  }

  /** The exceptions of the Java runtime and of the modelled classes. */
  datatype Exception =
    | NullPointer
    | IllegalArgument(reason: string)
    | IllegalState(reason: string)
    | NumberFormat(input: string)
    | IndexOutOfBounds
    | NegativeArraySize
    | OutOfMemory
    | Malformed(reason: string)
    | IOFailure(reason: string)
    | RasterFormat

  /** The outcome of an operation that returns nothing but may throw. */
  datatype Outcome = Pass | Fail(error: Exception)

  datatype Result<T> = Success(value: T) | Failure(error: Exception)
  {
    predicate IsFailure() { Failure? }
  }
}
