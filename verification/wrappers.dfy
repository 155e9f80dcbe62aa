/** Failure-carrying results, used wherever the machine reports an error
    instead of raising an exception or exiting the process. */
module Wrappers {

  datatype Option<+T> = None | Some(value: T)

  datatype Result<+T, +E> = Ok(value: T) | Err(error: E)

  datatype Outcome<+E> = Pass | Fail(error: E)
}
