/** The optional-value datatype used for the many nullable fields of the client. */
module Wrappers {

  datatype Option<+T> = None | Some(value: T) {

    /** The value in Some, or `default` for None. */
    function GetOr(default: T): T {
      match this
      case Some(v) => v
      case None => default
    }
  }
}
