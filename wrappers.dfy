/** The optional value used for Python's None and for dictionary keys that may be missing. */
module Wrappers {

  datatype Option<+T> = None | Some(value: T) {

    /** dict.get(key, default) once the lookup has produced an Option. */
    function GetOr(default: T): T
    {
      match this
      case Some(v) => v
      case None => default
    }
  }
}
