/** Optional values and results with an error message, used for absent JSON fields,
    nullable columns and awaited calls that may throw. */
module Wrappers {

  datatype Option<+T> = None | Some(value: T)

  /** The outcome of an awaited call: its value, or the message of the error it threw. */
  datatype Result<+T> = Ok(value: T) | Fail(message: string)
}
