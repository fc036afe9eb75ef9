/** Failure-carrying result types used where the source raises an exception. */
module Wrappers {

  datatype Option<+T> = None | Some(value: T)

  /** The exceptions the modelled code raises, with the offending key or name. */
  datatype Error =
    | KeyError(key: string)
    | ValueError(message: string)
    | TypeError(message: string)
    | IndexError
    | AssertionError
    | AttributeError(message: string)
    | ImproperlyConfigured(message: string)
    | Exception

  datatype Result<+T> = Ok(value: T) | Err(error: Error)
}
