/** The optional value used for fields that the source declares with `?`
    and for the nullable arguments (`Country | null`, `VisaRequirement | null`). */
module Wrappers {

  datatype Option<+T> = None | Some(value: T) {

    /** The value held, or `default` when there is none. */
    function GetOr(default: T): T
    {
      match this
      case Some(v) => v
      case None => default
    }
  }
}
