/** The result types shared by the models. */
module Wrappers {

  datatype Option<+T> = None | Some(value: T) {
    function GetOr(default: T): T {
      match this
      case Some(v) => v
      case None => default
    }
  }

  /** A call that either returns or throws. */
  datatype Result<+T> = Success(value: T) | Throws(error: string)

  /** A text in front of the one that may have been read. */
  function Prepend(p: seq<int>, r: Option<seq<int>>): Option<seq<int>> {
    match r
    case None => None
    case Some(s) => Some(p + s)
  }
}
