/** The two result types every other module uses. */
module Wrappers {

  /** A nullable column or an optional value. */
  datatype Option<+T> = None | Some(value: T)

  /** A value or the error the operation reports instead. */
  datatype Result<+T, +E> = Ok(value: T) | Err(error: E)
}
