/** Value wrappers shared by the service and the controller. */
module Common {

  /** A value that may be absent: JavaScript's `null` / `undefined`. */
  datatype Option<+T> = None | Some(value: T)

  /** The result of an async call that either resolves with a value or rejects
      with an error whose message is kept. */
  datatype Outcome<+T> = Returned(value: T) | Threw(message: string)
}
