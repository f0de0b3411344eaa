/** Failure-carrying values shared by every service of the model. */
module Common {

  datatype Option<+T> = None | Some(value: T)

  /** The three exception kinds the services raise. */
  datatype Error = NotFound | BadRequest | AccessDenied

  /** The value an operation returns, or the exception it raises. */
  datatype Result<+T> = Ok(value: T) | Err(error: Error)

  /** Python truthiness of an optional string: `None` and `""` are falsy. */
  predicate Truthy(s: Option<string>)
  {
    s.Some? && |s.value| > 0
  }
}
