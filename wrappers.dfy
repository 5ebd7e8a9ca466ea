/** Failure-carrying values for the exceptions the modelled Python code raises. */
module Wrappers {

  datatype Option<+T> = None | Some(value: T)

  /** The exception kinds raised by the modelled code, each with its message. */
  datatype Error =
    | RuntimeError(message: string)
    | ValueError(message: string)
    | TypeError(message: string)
    | Exception(message: string)

  /** A value, or the exception raised instead of returning it. */
  datatype Result<+R> = Success(value: R) | Failure(error: Error)

  /** A call that returns nothing, or the exception it raised. */
  datatype Outcome = Pass | Fail(error: Error)
}
