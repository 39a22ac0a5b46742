/** The optional value used wherever the reflection layer answers `null`. */
module Wrappers {

  /** `None` stands for a .NET `null` reference; `Some(v)` for a present value. */
  datatype Option<+T> = None | Some(value: T) {

    /** Returns the value held by `Some`, or `default` for `None`. */
    function GetOr(default: T): T {
      match this
      case Some(v) => v
      case None => default
    }
  }
}
