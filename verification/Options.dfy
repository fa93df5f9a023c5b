/** The two result shapes the rest of the model shares. */
module Options {

  /** A nullable column, or a lookup that may find nothing. */
  datatype Option<+T> = None | Some(value: T)

  /** A Go `(value, error)` pair: exactly one half is meaningful. */
  datatype Result<+T, +E> = Ok(value: T) | Err(error: E)
}
