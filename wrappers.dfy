/** Plain option and result types shared by the cache model. */
module Wrappers {

  /** PHP's "null or a value". */
  datatype Option<+T> = None | Some(value: T)

  /** A value, or the error a PHP call would have thrown instead. */
  datatype Result<+T, +E> = Ok(value: T) | Err(error: E)
}
