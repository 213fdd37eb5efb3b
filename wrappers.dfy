/** Option and Result datatypes shared by the waitlist modules. */
module Wrappers {

  /** A value that may be absent: a missing header, an unset setting, a missing JSON field. */
  datatype Option<+T> = None | Some(value: T)

  /** Either a value or an early answer that ends the request. */
  datatype Result<+R, +E> = Ok(value: R) | Err(error: E)
}
