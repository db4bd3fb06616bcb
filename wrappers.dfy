/** Optional values: a PHP `null`, an undefined constant, a missing array key or a SQL NULL. */
module Wrappers {
  datatype Option<+T> = None | Some(value: T) {
    function GetOr(default: T): T {
      match this
      case Some(v) => v
      case None => default
    }
  }
}
