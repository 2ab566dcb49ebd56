/** Option and the status-tagged reply every route handler produces. */
module Wrappers {

  /** The conventional Some/None datatype, standing for a JavaScript value that
      may be `null` or `undefined`. */
  datatype Option<+T> = None | Some(value: T) {

    /** Returns the value held in Some, or the given default. */
    function GetOr(default: T): T {
      match this
      case Some(v) => v
      case None => default
    }
  }

  /** What a route hands back to the HTTP layer: a success status with a
      payload, or an error status with the `error` message of its JSON body. */
  datatype Reply<+T> = Ok(status: int, value: T) | Fail(status: int, error: string) {

    predicate IsError() {
      Fail?
    }
  }

  /** A route's reply together with the store as it is after the call. */
  datatype Handled<+T, +S> = Handled(reply: Reply<T>, store: S)
}
