/** Optional values and outcomes that can fail, shared by the components. */
module Wrappers {
  datatype Option<+T> = None | Some(value: T)

  datatype Result<+T> = Ok(value: T) | Err(message: string)

  datatype Outcome = Pass | Fail(message: string)
}
