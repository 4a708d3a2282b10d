/** Failure-carrying wrappers shared by every module of the model:
    Go's `(value, ok)` pairs and `(value, error)` pairs become these. */
module Results {

  /** A value that may be absent; also stands for a Go pointer that may be nil
      and for an `error` that may be nil. */
  datatype Option<+T> = None | Some(value: T) {

    /** The carried value, or `default` when there is none. */
    function GetOr(default: T): T {
      match this
      case Some(v) => v
      case None => default
    }
  }

  /** Either a value or the error that prevented computing it. */
  datatype Result<+T, +E> = Ok(value: T) | Err(error: E)
}
