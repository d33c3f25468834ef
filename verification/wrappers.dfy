/** Option and Result: the absent value (JavaScript `undefined`, Python `None`)
    and the raised exception of the modelled code, as values. */
module Wrappers {

  datatype Option<+T> = None | Some(value: T) {

    /** The value, or `default` when absent. */
    function GetOr(default: T): T {
      match this
      case Some(v) => v
      case None => default
    }
  }

  /** `Failure` stands for an exception the source raises and does not catch. */
  datatype Result<+R, +E> = Success(value: R) | Failure(error: E) {

    function ToOption(): Option<R> {
      match this
      case Success(v) => Some(v)
      case Failure(_) => None
    }
  }
}
