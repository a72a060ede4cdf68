/** Optional values and results with a failure, used for the lookups and the
    exceptions of the uptime computation. */
module Wrappers {

  datatype Option<+T> = None | Some(value: T)

  datatype Result<+T, +E> = Ok(value: T) | Fail(error: E)
}
