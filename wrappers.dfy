/** Option and Result, shared by the serial monitor and the register table. */
module Wrappers {

  datatype Option<+T> = None | Some(value: T) {

    function GetOr(default: T): T {
      match this
      case Some(v) => v
      case None => default
    }
  }

  /** The outcome of an operation that the source either completes or abandons
      with an error message. */
  datatype Result<+R, +E> = Success(value: R) | Failure(error: E)
}
