/** Failure-carrying values used throughout the model: Rust's `Option<T>` and
    `Result<T, E>`. */
module Wrappers {

  datatype Option<+T> = None | Some(value: T)

  datatype Result<+T, +E> = Success(value: T) | Failure(error: E)

  /** `Option::map` */
  function MapOption<T, U>(o: Option<T>, f: T -> U): Option<U>
  {
    match o
    case None => None
    case Some(v) => Some(f(v))
  }
}
