// Small shared wrapper type used across the model.
module Common {

  /** Python's "value or None". */
  datatype Option<T> = None | Some(value: T) {
    function GetOr(default: T): T {
      match this
      case Some(v) => v
      case None => default
    }
  }
}
