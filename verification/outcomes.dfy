/** Optional values and the outcome of one call to the note store. */
module Outcomes {

  /** A value that may be absent: JavaScript's `null` (and other falsy stand-ins) becomes `None`. */
  datatype Option<+T> = None | Some(value: T)

  /** The settled promise of one store call: the JSON it resolved to, or the message of the
      `Error` it rejected with. */
  datatype Result<+T> = Ok(value: T) | Err(message: string)
}
