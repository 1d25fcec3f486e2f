/** Optional values: `None` stands for "no value" (PHP's `null` or `false` sentinel, depending on use). */
module Wrappers {

  datatype Option<+T> = None | Some(value: T) {

    /** The wrapped value, or `default` when there is none (PHP's `??` once absence is known). */
    function GetOr(default: T): T {
      match this
      case Some(v) => v
      case None => default
    }
  }
}
