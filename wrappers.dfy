/** Optional values and results: the model's counterpart of `undefined`/`null`
    and of functions that either return a value or throw. */
module Wrappers {

  datatype Option<+T> = None | Some(value: T)

  datatype Result<+T, +E> = Ok(value: T) | Err(error: E)
}
