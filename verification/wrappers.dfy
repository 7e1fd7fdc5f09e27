/** The optional values used throughout the model (Rust's `Option`). */
module Wrappers {

  datatype Option<+T> = None | Some(value: T) {

    /** Rust's `unwrap_or`: the held value, or `default` when there is none. */
    function GetOr(default: T): (r: T)
      ensures Some? ==> r == value
      ensures None? ==> r == default
    {
      match this
      case Some(v) => v
      case None => default
    }
  }
}
