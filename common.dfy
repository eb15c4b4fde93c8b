/** Identifiers, the error taxonomy and the success/failure wrappers shared by the
    entities, the repositories and the use cases of the forum. */
module Common {

  /** Thread, comment, reply, like and user identifiers are opaque strings. */
  type Id = string

  /** The kind of row a NotFound or Authorization error is about. */
  datatype Resource = ThreadResource | CommentResource | ReplyResource

  /** The three error families: a missing or unavailable row, an actor who does not
      own the row, and a malformed input (identified by its message code). */
  datatype Error =
    | NotFound(resource: Resource)
    | Authorization(resource: Resource)
    | Validation(code: string)

  /** A call that either resolves with a value or rejects with an error. */
  datatype Result<T> = Ok(value: T) | Err(error: Error)

  /** A call that either resolves with no value or rejects with an error. */
  datatype Outcome = Pass | Fail(error: Error)

  /** The authenticated actor handed to every write use case. */
  datatype Auth = Auth(id: Id)

  datatype Option<T> = None | Some(value: T)
}
