/** The optional value used for pandas' missing cells (NaN) and for parses
    that fail. */
module Options {

  datatype Option<+T> = None | Some(value: T) {

    /** The value, or the given default when missing (pandas' fillna). */
    function GetOr(default: T): T {
      match this
      case Some(v) => v
      case None => default
    }
  }
}
