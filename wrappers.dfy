/** Optional values: `None` stands for JavaScript's `null`/`undefined` and,
    where a result type is `Option`, for "the call threw". */
module Wrappers {

  datatype Option<+T> = None | Some(value: T) {

    /** The value, or `default` when there is none. */
    function GetOr(default: T): T {
      match this
      case Some(v) => v
      case None => default
    }
  }
}
