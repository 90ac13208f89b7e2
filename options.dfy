/** Optional values: PHP's `null` next to a value. */
module Options {

  datatype Option<+T> = None | Some(value: T) {

    /** The value, or `default` in place of null (PHP's `??`). */
    function GetOr(default: T): T {
      match this
      case Some(v) => v
      case None => default
    }
  }
}
