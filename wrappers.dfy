/** The optional value used wherever the source asks whether a tag or a
    field is present. */
module Wrappers {

  datatype Option<+T> = None | Some(value: T) {

    /** The value when present, the given default otherwise. */
    function GetOr(default: T): (r: T)
      ensures Some? ==> r == value
      ensures None? ==> r == default
    {
      match this
      case Some(v) => v
      case None => default
    }
  }
}
