/** Shared vocabulary of the portfolio back end and client: optional values,
    results with an error, and the ways the document store can fail. */
module Common {

  /** A value that may be absent (a JavaScript `undefined`). */
  datatype Option<+T> = None | Some(value: T)

  /** The outcome of an operation that can fail with an error value. */
  datatype Result<+T, +E> = Ok(value: T) | Err(error: E)

  /** What the document store does when a handler calls it: it answers, or
      it throws on a read (find, findById, findOne) or on a write (create,
      save, deleteOne). The message is the thrown error's `message`. */
  datatype Fault = Healthy | ReadFails(message: string) | WriteFails(message: string)

  /** Identifiers the store assigns to documents. */
  type Id = nat
}
