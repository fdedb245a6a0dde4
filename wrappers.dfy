/** Optional values and error-carrying results, standing in for the source's `undefined`,
    `null` and early returns. */
module Wrappers {

  datatype Option<T> = None | Some(value: T) {
    /** The value, or `default` when there is none (the `??` operator). */
    function GetOr(default: T): T {
      match this
      case Some(v) => v
      case None => default
    }
  }

  datatype Result<T, E> = Ok(value: T) | Err(error: E)
}
