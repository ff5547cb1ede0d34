/** Option and Result, the two failure-carrying shapes the model uses. */
module Wrappers {

  /** An optional value: a TypeScript `T | undefined` or a nullable column. */
  datatype Option<+T> = None | Some(value: T) {

    /** The value, or `default` when absent (`x ?? default`). */
    function GetOr(default: T): T {
      match this
      case Some(v) => v
      case None => default
    }
  }

  /** The outcome of an asynchronous call: a resolved value or a thrown error. */
  datatype Result<+R, +E> = Success(value: R) | Failure(error: E)
}
