/** The optional values and fallible results every other module speaks in. */
module Wrappers {
  /** A value that may be absent: the source's None. */
  datatype Option<+T> = None | Some(value: T)

  /** What a call that may raise gives back: its value, or what it raised. */
  datatype Result<+T, +E> = Ok(value: T) | Raised(error: E)
}
