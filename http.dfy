/** Vocabulary shared by the route handlers: optional values, the HTTP
    statuses they answer with, and the two shapes of a JSON response. */
module Http {

  /** An optional value; `None` also stands for a JSON field or query
      parameter that was not sent. */
  datatype Option<+T> = None | Some(value: T)

  /** `field || ''`: an absent field or parameter reads as the empty string. */
  function OrEmpty(field: Option<string>): string {
    if field.Some? then field.value else ""
  }

  /** The statuses the route handlers answer with (200, 201, 400, 401, 403,
      404, 409, 500). `InternalError` is the 500 that every handler sends
      when the database throws. */
  datatype Status = Ok | Created | BadRequest | Unauthorized | Forbidden | NotFound | Conflict | InternalError

  /** A response: a success body, or an error body with its messages
      (`{ error }` carries one message, `{ errors }` one per failed field). */
  datatype Reply<+T> = Success(status: Status, value: T) | Failure(status: Status, errors: seq<string>)

  const InternalErrorMessage := "Internal server error"
}
