/** The optional value that Python expresses with `None`, or with a missing dictionary key. */
module Wrappers {

  datatype Option<+T> = None | Some(value: T) {

    /** `d.get(key, default)`: the value if present, the default otherwise. */
    function GetOr(default: T): (r: T)
      ensures Some? ==> r == value
      ensures None? ==> r == default
    {
      match this
      case Some(v) => v
      case None => default
    }
  }
}
