/** Option and Result values used for the error paths of the modelled code. */
module Wrappers {

  datatype Option<+T> = None | Some(value: T)

  /** `Err` stands for a Python exception raised by the modelled function. */
  datatype Result<+T, +E> = Ok(value: T) | Err(error: E)
}
