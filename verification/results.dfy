/** Failure-carrying values shared by every module of the model. */
module Results {

  /** A value that may be absent, like Rust's `Option`. */
  datatype Option<+T> = None | Some(value: T)

  /** Success with a value, or an error carrying the message the tool reports. */
  datatype Result<+T> = Ok(value: T) | Err(message: string)
}
