/** Failure-compatible result types shared by the server and mobile models. */
module Wrappers {

  /** A value that may be absent: TypeScript's `T | null` and Kotlin's `T?`. */
  datatype Option<+T> = None | Some(value: T) {

    /** The `?:` / `??` operator: the value if present, else the fallback. */
    function OrElse(fallback: T): T {
      match this
      case Some(v) => v
      case None => fallback
    }
  }

  /** The outcome of an operation that either returns a value or throws. */
  datatype Result<+T, +E> = Ok(value: T) | Err(error: E)
}
