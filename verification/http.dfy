/** The HTTP surface shared by the handlers: methods and status-carrying responses. */
module Http {

  datatype Method = GET | POST | PUT | DELETE

  /** `res.status(status).json(body)`. */
  datatype Response<+B> = Response(status: int, body: B)

  const OK: int := 200
  const CREATED: int := 201
  const NO_CONTENT: int := 204
  const BAD_REQUEST: int := 400
  const UNAUTHORIZED: int := 401
  const NOT_FOUND: int := 404
  const SERVER_ERROR: int := 500
}
