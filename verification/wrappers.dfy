/** Optional values and success-or-failure outcomes used throughout the model. */
module Wrappers {

  /** Swift's `T?`: either nothing or a value. */
  datatype Option<+T> = None | Some(value: T)

  /** An outcome that either carries a value or names the reason it could not be produced. */
  datatype Result<+T, +E> = Ok(value: T) | Err(error: E)
}
