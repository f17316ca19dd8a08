/** Optional values: the model's stand-in for a JavaScript property that may be
    `undefined` (absent) or hold a value. */
module Wrappers {

  datatype Option<+T> = None | Some(value: T) {

    /** JavaScript `x ?? fallback`: only an absent value is replaced. */
    function GetOr(fallback: T): (r: T)
      ensures Some? ==> r == value
      ensures None? ==> r == fallback
    {
      match this
      case Some(v) => v
      case None => fallback
    }
  }
}
