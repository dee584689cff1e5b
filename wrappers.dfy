/** Small helper datatypes shared by the whole model. */
module Wrappers {

  /** A value that may be absent: PHP's `null`, a missing array key or a row that a query did not find. */
  datatype Option<+T> = None | Some(value: T) {

    /** The value, or `default` when there is none (PHP's `??` operator). */
    function GetOr(default: T): T {
      match this
      case Some(v) => v
      case None => default
    }
  }
}
