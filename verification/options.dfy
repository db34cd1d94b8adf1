/** The absent-or-present value used for optional record fields and for
    lookups that may find nothing (the source's `undefined` / `null`). */
module Options {

  datatype Option<+T> = None | Some(value: T) {

    /** The wrapped value, or `default` when absent. */
    function GetOr(default: T): T {
      match this
      case Some(v) => v
      case None => default
    }
  }
}
