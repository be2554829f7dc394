/** Failure-carrying shapes shared by every module of the model. */
module Base {

  /** A value that may be missing: `undefined` in JavaScript, an absent key, a failed parse. */
  datatype Option<+T> = None | Some(value: T)

  /** The outcome of a JavaScript call that can throw: the value, or the thrown error's message. */
  datatype Result<+T> = Ok(value: T) | Err(error: string)
}
