/** Optional values and results with an error, shared by the models. */
module Results {

  datatype Option<T> = None | Some(value: T)

  /** The outcome of a computation that may throw: its value, or the kind
      of exception it raises. */
  datatype Result<T> = Ok(value: T) | Throws(error: Exception)

  datatype Exception =
    | TypeError  // a property read on null or undefined, or a call of a missing method
    | UriError   // a malformed percent-encoding
}
