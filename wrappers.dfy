/** Option and Result, the failure-carrying wrappers the rest of the model returns. */
module Wrappers {

  datatype Option<+T> = None | Some(value: T) {
    /** `value ?? default` */
    function GetOr(default: T): T {
      match this
      case Some(v) => v
      case None => default
    }
  }

  /** A value, or the HTTP exception an operation throws instead. */
  datatype Result<+R, +E> = Success(value: R) | Failure(error: E)
}
