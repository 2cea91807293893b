/** Failure-compatible datatypes shared by the rest of the model.
    `Option` stands for a value that may be missing (a month without samples,
    a string that does not parse); `Result` stands for a computation that may
    raise (Python's ValueError in the date parsing calls). */
module Wrappers {

  datatype Option<+T> = None | Some(value: T) {

    /** The encapsulated value, or `default` when there is none. */
    function GetOr(default: T): T {
      match this
      case Some(v) => v
      case None => default
    }
  }

  datatype Result<+R, +E> = Ok(value: R) | Err(error: E)
}
