/** Failure-carrying result types shared by every module. */
module Wrappers {

  /** An optional value: `None` stands for "absent" or "could not be parsed". */
  datatype Option<+T> = None | Some(value: T) {
    function GetOr(default: T): T {
      match this
      case Some(v) => v
      case None => default
    }
  }

  /** The value of an operation that can fail; the error carries a message. */
  datatype Result<+T> = Ok(value: T) | Err(msg: string)
}
