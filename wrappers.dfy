/** Optional values: JavaScript's `undefined`/`null` on one side of `??`, a value on the other. */
module Wrappers {

  datatype Option<+T> = None | Some(value: T) {

    /** `x ?? d`: the value when there is one, the default otherwise. */
    function GetOr(default: T): (r: T)
      ensures Some? ==> r == value
      ensures None? ==> r == default
    {
      match this
      case Some(v) => v
      case None => default
    }
  }

  /** The value of an `await` that either resolves or throws. */
  datatype Result<+T, +E> = Ok(value: T) | Err(error: E)
}
