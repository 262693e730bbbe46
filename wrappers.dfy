/** Optional configuration values: a key that is absent from a YAML mapping
    reads as None, and `dict.get(key, default)` is GetOr(default). */
module Wrappers {

  datatype Option<+T> = None | Some(value: T) {

    /** The value if present, otherwise the given default. */
    function GetOr(default: T): T {
      match this
      case Some(v) => v
      case None => default
    }
  }
}
