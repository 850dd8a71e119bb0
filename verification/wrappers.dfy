/** Small wrapper datatypes used across the model.
    `Option` stands in for JavaScript values that may be absent (`undefined`, `null`)
    and for the number `NaN`; `Result` stands in for an operation that may throw. */
module Wrappers {

  datatype Option<+T> = None | Some(value: T) {

    /** The wrapped value, or `default` when there is none (JavaScript's `x ?? default`). */
    function GetOr(default: T): T {
      match this
      case Some(v) => v
      case None => default
    }
  }

  /** `Failure` carries the message of the exception JavaScript would throw. */
  datatype Result<+R, +E> = Success(value: R) | Failure(error: E)
}
