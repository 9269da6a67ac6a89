/** The optional value used wherever the Python code uses `None`. */
module Options {
  datatype Option<+T> = None | Some(value: T) {
    /** `x if x is not None else default`, the `dict.get(key, default)` idiom. */
    function GetOr(default: T): T {
      match this
      case Some(v) => v
      case None => default
    }
  }
}
