/** Small result types shared by the other modules. */
module Wrappers {

  /** A value that may be absent: a missing dictionary key, a NULL column, an empty form widget. */
  datatype Option<T> = None | Some(value: T) {
    /** The value if present, otherwise `default` (Python's `d.get(key, default)`). */
    function GetOr(default: T): T {
      match this
      case Some(v) => v
      case None => default
    }
  }

  /** The outcome of a call into code outside the model: it returns a value or raises. */
  datatype Outcome<T> = Ok(value: T) | Raised(message: string)
}
