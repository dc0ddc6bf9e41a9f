/** Option and Result datatypes used by the executor model. */
module Wrappers {

  /** An optional value: the resolver's `undefined` is modelled separately, this is for the model's own use. */
  datatype Option<+T> = None | Some(value: T)

  /** The outcome of an executor call: the returned value, or the error it throws. */
  datatype Result<+T, +E> = Ok(value: T) | Err(error: E)
}
