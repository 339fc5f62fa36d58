/** Optional values and results, used for absent arguments and for the error paths of the widgets. */
module Wrappers {

  datatype Option<T> = None | Some(value: T)

  datatype Result<T, E> = Ok(value: T) | Err(error: E)
}
