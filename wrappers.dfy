/** Optional values: `None` stands for JavaScript's `undefined`, `null` or `NaN`,
    whichever the source uses for "no value" at that point. */
module Wrappers {

  datatype Option<+T> = None | Some(value: T) {

    /** The value, or `default` when there is none (JavaScript's `x || default`
        on a value that is never falsy when present). */
    function GetOr(default: T): T {
      match this
      case Some(v) => v
      case None => default
    }
  }
}
