/** The optional value used for dictionary lookups and for Python's `None`. */
module Wrappers {
  datatype Option<+T> = None | Some(value: T) {
    /** `value if present else default` */
    function GetOr(default: T): T {
      match this
      case Some(v) => v
      case None => default
    }
  }
}
