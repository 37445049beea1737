/** Small shared datatypes used by every component model. */
module Common {

  /** A value that may be absent: JavaScript's `null`/`undefined` for one field. */
  datatype Option<+T> = None | Some(value: T) {

    /** The value, or `default` when absent (JavaScript's `x || default` on objects). */
    function GetOr(default: T): T {
      match this
      case Some(v) => v
      case None => default
    }
  }
}
