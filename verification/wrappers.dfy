/** The optional value the pipeline uses wherever the source returns `null`
    or `undefined` (an unparseable timestamp, an absent lookup). */
module Wrappers {

  datatype Option<+T> = None | Some(value: T) {

    /** The wrapped value, or `default` when there is none (JavaScript's `??`). */
    function GetOr(default: T): T {
      match this
      case Some(v) => v
      case None => default
    }
  }
}
