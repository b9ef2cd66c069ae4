/** The error result that replaces the source's panics. */
module Wrappers {

  datatype Result<+T, +E> = Ok(value: T) | Err(error: E)
}
