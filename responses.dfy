/**
 * What a handler answers. Successful bodies are the `Success` value; the
 * refusals carry the status code's kind and the message the handler sends.
 * `Forwarded` is an error handed to Express's `next(error)`, whose generic
 * handler answers with the error's own `status` (500 when it has none).
 */
module Responses {
  import opened Optionals

  datatype Status =
    | BadRequest(message: string)
    | Unauthorized(message: string)
    | NotFound(message: string)
    | Conflict(message: string)
    | Forwarded(status: Option<int>)

  datatype Outcome<+T> = Success(value: T) | Failure(status: Status)

  /** A NOT NULL column set to null makes `instance.update` throw a validation error. */
  const ValidationError := Forwarded(None)

  /** A write breaking a foreign key makes the query throw a constraint error
      that carries no status. */
  const ForeignKeyError := Forwarded(None)
}
