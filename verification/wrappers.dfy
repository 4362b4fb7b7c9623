/** Optional values: a missing cell, a failed parse, an unresolved column. */
module Wrappers {

  datatype Option<+T> = None | Some(value: T) {

    /** The value, or `default` when absent (pandas' fillna for one cell). */
    function GetOr(default: T): T {
      match this
      case Some(v) => v
      case None => default
    }

    /** This option if present, otherwise `other` (first tier that succeeds wins). */
    function OrElse(other: Option<T>): Option<T> {
      if Some? then this else other
    }
  }
}
