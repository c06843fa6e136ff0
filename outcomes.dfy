/** Success and failure values for the modelled operations.  Each Python
    exception the modelled code raises becomes an `Error` tag. */
module Outcomes {

  /** The Python exception classes raised by the modelled code. */
  datatype Error = ValueError | TypeError | KeyError | IndexError | AttributeError | InvalidIndexError

  datatype Option<+T> = None | Some(value: T)

  /** A value, or the exception that was raised instead. */
  datatype Result<+T> = Ok(value: T) | Err(error: Error)

  /** The result of an operation that returns nothing when it succeeds. */
  datatype Outcome = Done | Raised(error: Error)
}
