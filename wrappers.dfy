/** Option and Result types for the store's optional lookups and its raised errors. */
module Wrappers {

  datatype Option<+T> = None | Some(value: T)

  /** A Python call that either returns a value or raises a ValueError with a message. */
  datatype Result<+T> = Ok(value: T) | Err(error: string)
}
