/** Optional values: a nullable column, an absent request field, a failed lookup. */
module Wrappers {
  datatype Option<+T> = None | Some(value: T) {
    /** The value, or `default` when absent (PHP's and JavaScript's `??`). */
    function GetOr(default: T): T {
      match this
      case Some(v) => v
      case None => default
    }
  }
}
