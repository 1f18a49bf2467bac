/** Optional values, standing for the `undefined` of an omitted option field. */
module Wrappers {
  datatype Option<+T> = None | Some(value: T) {
    /** The value, or `default` when the field was omitted. */
    function GetOr(default: T): T {
      match this
      case Some(v) => v
      case None => default
    }
  }
}
