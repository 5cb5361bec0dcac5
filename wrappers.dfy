/** Option and Result, used for the "no rule applied" answer of a side scan
    and for the errors raised by the validating constructors. */
module Wrappers {

  datatype Option<+T> = None | Some(value: T)

  datatype Result<+T, +E> = Ok(value: T) | Err(error: E)
}
