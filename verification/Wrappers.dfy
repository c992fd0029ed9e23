/** The two result shapes the modelled code uses: an optional value and a value-or-error. */
module Wrappers {

  /** A value that may be absent (`undefined` or `null` in the modelled code). */
  datatype Option<+T> = None | Some(value: T)

  /** The outcome of an operation that can be refused. */
  datatype Result<+T, +E> = Ok(value: T) | Err(error: E)
}
