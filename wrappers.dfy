/** Optional values: JavaScript's `null` / `undefined` and the NaN that a failed
    number parse yields are modelled as `None`. */
module Wrappers {
  datatype Option<+T> = None | Some(value: T) {
    function GetOr(default: T): T {
      match this
      case Some(v) => v
      case None => default
    }
  }
}
