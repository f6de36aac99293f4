/** The optional-value datatype used throughout the model for JavaScript's
    `undefined`/`null` and for values a backend may or may not return. */
module Wrappers {

  datatype Option<+T> = None | Some(value: T) {

    /** The value, or `default` when absent (JavaScript's `x ?? default`). */
    function GetOr(default: T): T {
      match this
      case Some(v) => v
      case None => default
    }
  }
}
