/** Optional values and success/failure results, used wherever the source
    has `undefined`/`null` or a promise that can reject. */
module Wrappers {

  datatype Option<+T> = None | Some(value: T) {

    /** The value, or `default` when there is none. */
    function GetOr(default: T): T
    {
      match this
      case Some(v) => v
      case None => default
    }
  }

  datatype Result<+R, +E> = Success(value: R) | Failure(error: E)

  /** The single value of a promise that settles with no payload. */
  datatype Unit = Unit
}
