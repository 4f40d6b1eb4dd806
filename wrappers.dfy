/** The optional value the Swift code writes as `T?`. */
module Wrappers {

  datatype Option<+T> = None | Some(value: T) {

    /** `self ?? default` */
    function GetOr(default: T): T {
      match this
      case Some(v) => v
      case None => default
    }

    /** `a ?? b` where both sides are optional. */
    function OrElse(other: Option<T>): Option<T> {
      if Some? then this else other
    }
  }
}
