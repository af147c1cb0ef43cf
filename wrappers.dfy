/** Option and Result types shared by every module of the model. */
module Wrappers {

  datatype Option<T> = None | Some(value: T)

  /** The .NET exceptions the modelled code can raise. */
  datatype Exception =
    | KeyNotFound      // Dictionary indexer on a missing key
    | InvalidOperation // SingleOrDefault with more than one match
    | Argument         // ArgumentException thrown by the code itself
    | NotSupported     // NotSupportedException thrown by the code itself
    | InvalidCast      // a cast of a value of another type
    | NullReference    // a member access on null
    | IndexOutOfRange  // a string or array index past the end
    | Format           // long.Parse or bool.Parse of text that is not a number or a boolean
    | Overflow         // long.Parse of a number outside the 64-bit range
    | NotImplemented   // NotImplementedException thrown by the code itself

  datatype Result<T> = Success(value: T) | Failure(error: Exception)
  {
    predicate IsFailure() { Failure? }
  }
}
