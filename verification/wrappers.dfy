/** Optional values, standing in for JavaScript's `undefined`. */
module Wrappers {

  /** `None` is an absent value (`undefined`); `Some(v)` is a present one. */
  datatype Option<+T> = None | Some(value: T) {

    /** Returns the value, or `default` when it is absent. */
    function GetOr(default: T): T {
      match this
      case Some(v) => v
      case None => default
    }
  }
}
