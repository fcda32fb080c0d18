/** Failure-carrying datatypes shared by every stage of the pipeline. */
module Wrappers {

  /** Rust's `Option<T>`. */
  datatype Option<+T> = None | Some(value: T) {

    /** `unwrap_or(default)` */
    function GetOr(default: T): T {
      match this
      case Some(v) => v
      case None => default
    }
  }

  /** An `anyhow::Result<T>`: either a value or an error message. */
  datatype Result<+T> = Ok(value: T) | Err(error: string)
}
