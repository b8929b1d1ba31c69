/** Option and Result, the shapes the model uses for Kotlin's nullable values
    and for the `Either` / exception paths of the services. */
module Wrappers {

  /** A Kotlin `T?`: `None` is `null`. */
  datatype Option<+T> = None | Some(value: T)

  /** A Kotlin `Either<E, T>` (or a call that may throw): `Failure` carries the error. */
  datatype Result<+T, +E> = Success(value: T) | Failure(error: E)

  function Min(a: int, b: int): int
  {
    if a <= b then a else b
  }
}
