/** FastAPI's `HTTPException`: a status code and a detail message. */
module Http {

  datatype HttpError = HttpError(status: int, detail: string)

  const BadRequest := 400
  const Unauthorized := 401
  const Forbidden := 403
  const NotFound := 404
  const InternalServerError := 500

  /** What an uncaught exception inside a handler turns into. */
  const Unhandled := HttpError(InternalServerError, "Internal Server Error")
}
