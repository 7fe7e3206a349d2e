/** Option and Result: pandas nulls and the pipeline's fatal errors. */
module Wrappers {

  /** A value that may be missing (a pandas NaN / None cell). */
  datatype Option<+T> = None | Some(value: T) {
    /** The value, or `default` when it is missing (pandas `fillna`). */
    function GetOr(default: T): T {
      match this
      case Some(v) => v
      case None => default
    }
  }

  /** The outcome of a step that may abort the whole run. */
  datatype Result<+R, +E> = Success(value: R) | Failure(error: E)
}
