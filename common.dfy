/** Small value types shared by the client and server models. */
module Common {

  /** An optional value: a JavaScript `undefined`/absent field or a missing form entry. */
  datatype Option<+T> = None | Some(value: T)

  /** A provider call that either returns a value or throws with a message. */
  datatype Outcome<+T> = Ok(value: T) | Err(message: string)

  /** Raw file contents. */
  type Bytes = seq<bv8>
}
