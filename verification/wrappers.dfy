/** The optional value used for query parameters that may be absent and for
    parsers that may fail (the source's `None` and its caught exceptions). */
module Wrappers {

  datatype Option<+T> = None | Some(value: T) {

    /** The encapsulated value, or `default` when there is none. */
    function GetOr(default: T): T {
      match this
      case Some(v) => v
      case None => default
    }
  }
}
