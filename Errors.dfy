/**
 * Null references and the exceptions raised by the extension helpers.
 * A .NET reference that may be null is an `Option` (`None` is null); an
 * operation that may throw returns a `Result` whose `Err` names the exception.
 */
module Errors {

  datatype Option<+T> = None | Some(value: T)

  /** The exceptions the helpers raise, with the parameter name they report. */
  datatype Error =
    | ArgumentNull(paramName: string)   // System.ArgumentNullException
    | NullReference                     // System.NullReferenceException
    | InvalidOperation(message: string) // System.InvalidOperationException
    | DivideByZero                      // System.DivideByZeroException

  datatype Result<+T> = Ok(value: T) | Err(error: Error)
}
