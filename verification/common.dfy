/** Values standing for JavaScript's `undefined`/`null` and for operations that can fail. */
module Common {

  /** `None` plays the part of `undefined` or SQL NULL. */
  datatype Option<+T> = None | Some(value: T) {
    /** `x ?? default` */
    function GetOr(default: T): T {
      match this
      case Some(v) => v
      case None => default
    }
  }

  /** Success, or the error a call would have thrown. */
  datatype Result<+T, +E> = Ok(value: T) | Err(error: E)
}
