/** Failure-carrying datatypes shared by the whole model. */
module Wrappers {

  datatype Option<+T> = None | Some(value: T)

  /** The exceptions the modelled code raises, by .NET exception type. */
  datatype Error =
    | InvalidOperation(message: string)
    | IndexOutOfRange(message: string)
    | ArgumentOutOfRange(message: string)

  /** Completion of an operation that returns nothing: normal return or a raised exception. */
  datatype Outcome = Pass | Fail(error: Error)

  /** Completion of an operation that returns a value or raises an exception. */
  datatype Result<+T> = Ok(value: T) | Err(error: Error)
}
