/**
  What a route handler sends back: an HTTP status code and a JSON body that is
  either `{ message }`, `{ error }` or a payload.
 */
module Http {
  datatype Body<+T> = Message(text: string) | Error(error: string) | Data(value: T)

  datatype Response<+T> = Response(status: nat, body: Body<T>)

  /** Statuses the routes use. */
  const OK: nat := 200
  const Created: nat := 201
  const BadRequest: nat := 400
  const NotFound: nat := 404
  const InternalError: nat := 500
}
