/** The optional value used wherever the source has a missing key, a `None`
    or an exception that is caught and turned into "no result". */
module Wrappers {
  datatype Option<T> = None | Some(value: T) {
    function GetOr(default: T): T {
      match this
      case Some(v) => v
      case None => default
    }
  }
}
