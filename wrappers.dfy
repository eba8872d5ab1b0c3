/** Option and Result: the error paths of the importers (a Python exception
    becomes an Err value instead of a precondition). */
module Wrappers {

  datatype Option<+T> = None | Some(value: T)

  datatype Result<+T, +E> = Ok(value: T) | Err(error: E)
}
