/** Option and Result values, used where the client uses `undefined`, `NaN` or an early return. */
module Wrappers {

  datatype Option<+T> = None | Some(value: T)

  datatype Result<+R, +E> = Ok(value: R) | Err(error: E)
}
