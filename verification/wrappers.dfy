/** Values that may be absent. */
module Wrappers {

  /** Either nothing or one value: an omitted prop, a missing theme provider,
      an unset localStorage entry, a tab list with no first entry. */
  datatype Option<+T> = None | Some(value: T) {

    /** The value when there is one, `default` when there is none. */
    function GetOr(default: T): T
    {
      match this
      case Some(v) => v
      case None => default
    }
  }
}
