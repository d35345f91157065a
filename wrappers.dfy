/** Optional values: a Go pointer that may be nil, a JavaScript value that may be
    missing, a SQL column that may be NULL. */
module Wrappers {

  datatype Option<+T> = None | Some(value: T) {

    /** The wrapped value, or `default` when there is none. */
    function GetOr(default: T): T {
      match this
      case Some(v) => v
      case None => default
    }
  }
}
