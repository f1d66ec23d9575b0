/** Failure-compatible result types used wherever the modelled code can raise
    or return "nothing". */
module Wrappers {

  /** Python's `None` / a missing dictionary entry, or a present value. */
  datatype Option<+T> = None | Some(value: T) {

    /** The value, or `default` when absent (Python's `d.get(k, default)`). */
    function GetOr(default: T): T {
      match this
      case Some(v) => v
      case None => default
    }
  }

  /** A value, or the exception the modelled code would have raised. */
  datatype Result<+R> = Success(value: R) | Failure(error: string)
}
