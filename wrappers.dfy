/** The optional value the application writes as `T | null` or an optional field. */
module Wrappers {

  datatype Option<+T> = None | Some(value: T) {

    /** The value, or a default when there is none (`x ?? d`). */
    function GetOr(default: T): T {
      match this
      case Some(v) => v
      case None => default
    }
  }

  /** The outcome of an operation that can fail with a message (a thrown `Error`). */
  datatype Result<+T> = Success(value: T) | Failure(error: string)
}
