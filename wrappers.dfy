/** Optional values: null-able fields and JSON properties. */
module Wrappers {

  /** None stands for JavaScript/C# `null`. */
  datatype Option<+T> = None | Some(value: T) {
    /** The `??` operator: the value, or the fallback when null. */
    function GetOr(fallback: T): T {
      match this
      case Some(v) => v
      case None => fallback
    }
  }
}
