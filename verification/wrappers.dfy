/** Optional values and results shared by every module of the model.
    `None` stands for JavaScript's `undefined`/`null` and Python's missing key;
    `Failure` stands for a thrown exception or an error return. */
module Wrappers {

  datatype Option<+T> = None | Some(value: T) {

    /** The `??` operator of JavaScript: this value when present, else `default`. */
    function GetOr(default: T): T {
      match this
      case Some(v) => v
      case None => default
    }
  }

  datatype Result<+R, +E> = Success(value: R) | Failure(error: E)
}
