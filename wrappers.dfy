/** Option and Result, used for the values the source leaves `undefined`
    and for the runs it aborts with an exception. */
module Wrappers {
  datatype Option<+T> = None | Some(value: T)

  datatype Result<+R, +E> = Ok(value: R) | Err(error: E)
}
