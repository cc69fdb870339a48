/** Small failure-carrying datatypes shared by the whole model. */
module Wrappers {

  /** A value that may be absent (`undefined`/`null` in the original program). */
  datatype Option<+T> = None | Some(value: T) {

    /** The wrapped value, or `default` when absent. */
    function GetOr(default: T): T {
      match this
      case Some(v) => v
      case None => default
    }
  }

  /** The outcome of a step that can fail (a thrown error or an error return). */
  datatype Result<+T> = Ok(value: T) | Failed
}
