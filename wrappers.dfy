/** Option, used for values that Python represents as `None` or as a missing key. */
module Wrappers {

  datatype Option<+T> = None | Some(value: T) {

    /** The wrapped value, or `default` when there is none (Python's `d.get(k, default)`). */
    function GetOr(default: T): (value: T) {
      match this
      case Some(v) => v
      case None => default
    }
  }
}
