/** Optional values: the model's stand-in for Ruby's `nil`-or-value attributes. */
module Wrappers {

  /** `None` plays the part of `nil`; `Some(v)` carries a set value. */
  datatype Option<+T> = None | Some(value: T) {

    /** The value if present, otherwise `fallback` (Ruby's `x || fallback`). */
    function GetOr(fallback: T): T {
      match this
      case Some(v) => v
      case None => fallback
    }
  }
}
