/** Python's `None`-or-value, as used for every score and penalty field. */
module Optional {

  datatype Option<+T> = None | Some(value: T) {

    /** The value if present, the given default otherwise (`x if x is not None else d`). */
    function GetOr(default: T): T {
      match this
      case Some(v) => v
      case None => default
    }
  }
}
