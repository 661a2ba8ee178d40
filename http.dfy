/** The error a route answers with: FastAPI's HTTPException, a status code and a detail message. */
module Http {

  datatype HttpError = HttpError(status: int, detail: string)

  const BadRequest: int := 400
  const Unauthorized: int := 401
  const Forbidden: int := 403
  const NotFound: int := 404
  const ServerError: int := 500
}
