/** Keys, optional values and results that may be an error. */
module Wrappers {
  /** Stands for a primary key: a UUID, or the unique slug of a scope category. */
  datatype Id = Id(key: nat)

  datatype Option<+T> = None | Some(value: T)
  datatype Result<+T, +E> = Ok(value: T) | Err(error: E)
}
