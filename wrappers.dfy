/** Optional values: the source's `undefined` results (a `find` that matches nothing,
    a missing map entry, a callback that reports nothing). */
module Wrappers {

  datatype Option<+T> = None | Some(value: T) {

    /** The value, or `default` when there is none (the source's `??`). */
    function GetOr(default: T): T {
      match this
      case Some(v) => v
      case None => default
    }
  }
}
