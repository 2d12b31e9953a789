/** Wrappers shared by the reel feed and the booking form. */
module Wrappers {

  /** A value that may be absent: JavaScript's `T | null` and the
      `undefined` that `Array.prototype.find` returns when nothing matches. */
  datatype Option<+T> = None | Some(value: T)

  /** The outcome of a validation: the parsed value, or the reasons it failed. */
  datatype Result<+R, +E> = Success(value: R) | Failure(error: E)
}
