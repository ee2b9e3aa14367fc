/** Optional values: the model's stand-in for JavaScript's `undefined`
    (an absent field, a failed `find`, an empty store slot). */
module Wrappers {

  datatype Option<+T> = None | Some(value: T) {

    /** Returns the value, or `default` when absent (the `??` operator). */
    function GetOr(default: T): T {
      match this
      case Some(v) => v
      case None => default
    }
  }
}
