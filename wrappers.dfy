/** Failure-carrying values shared by the other modules. */
module Wrappers {

  datatype Option<+T> = None | Some(value: T)

  /** The two Python exception classes the modelled code raises. */
  datatype Error = TypeError(message: string) | ValueError(message: string)

  /** A value, or the exception that the source would raise instead. */
  datatype Result<+T> = Success(value: T) | Failure(error: Error)
}
