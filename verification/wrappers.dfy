/** Failure-carrying result types shared by every module of the model. */
module Wrappers {

  /** An optional value; `None` is Go's "absent" / "error" side of a two-valued return. */
  datatype Option<+T> = None | Some(value: T)

  /** Go's `(T, error)` pair, with the value meaningful only on success. */
  datatype Result<+T, +E> = Success(value: T) | Failure(error: E)
}
