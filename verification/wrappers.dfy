/** Kotlin's nullable values (`T?`), as an explicit Some/None datatype. */
module Wrappers {

  datatype Option<+T> = None | Some(value: T) {

    /** The encapsulated value, or `default` for None (Kotlin's `?:` and `orEmpty()`). */
    function GetOr(default: T): T {
      match this
      case Some(v) => v
      case None => default
    }
  }
}
