/** Optional values and the Python exceptions the modelled code can raise. */
module Wrappers {

  datatype Option<+T> = None | Some(value: T)

  /** The exception classes the modelled code raises (or lets escape). */
  datatype Error =
    | ValueError
    | TypeError
    | ZeroDivisionError
    | IndexError
    | AssertionError

  /** The outcome of a call that may raise. */
  datatype Run<+T> = Ok(value: T) | Raised(error: Error)
}
