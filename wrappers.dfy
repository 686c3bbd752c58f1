/** The optional-value datatype shared by the other modules. */
module Wrappers {

  /** A value that may be absent: a missing object property, a key not found. */
  datatype Option<+T> = None | Some(value: T) {

    function GetOr(default: T): T {
      match this
      case Some(v) => v
      case None => default
    }
  }
}
