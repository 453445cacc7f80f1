/** Failure-carrying wrappers shared by all modules of the model. */
module Common {

  datatype Option<+T> = None | Some(value: T)

  /** The outcome of an operation that either yields a value or throws an Error with a message. */
  datatype Result<+T> = Ok(value: T) | Err(message: string)

  /** JavaScript's `Math.min` on two naturals, used for slice bounds. */
  function Min(a: nat, b: nat): nat
  {
    if a <= b then a else b
  }
}
