/** The Some/None datatype used wherever the server's JavaScript either
    produces a value or throws (a failed `JSON.parse`, a missing file). */
module Wrappers {

  datatype Option<+T> = None | Some(value: T) {

    /** The encapsulated value, or `default` when there is none. */
    function GetOr(default: T): T
    {
      match this
      case Some(v) => v
      case None => default
    }
  }
}
