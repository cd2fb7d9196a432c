/** Result wrappers shared by the whole model. */
module Common {

  /** A value that may be missing. */
  datatype Option<+T> = None | Some(value: T)

  /** How a JavaScript expression or statement completes: with a value, or by throwing
      (every exception the modelled code can raise is a TypeError, so no payload is kept). */
  datatype Completion<+T> = Normal(value: T) | Throw
}
