/**
 * The three HTTP errors of the service layer. Each Python exception class fixes
 * a default status code and a default detail message, both overridable by the
 * caller; raising one of them is modelled as returning its value.
 */
module BaseExceptions {

  datatype ErrorKind = NotFound | Unauthorized | BadRequest

  datatype HttpError = HttpError(kind: ErrorKind, statusCode: int, detail: string)

  /** `NotFoundException(detail, status_code)` with the class's defaults. */
  function NotFoundException(detail: string := "Resource not found", statusCode: int := 404): HttpError
  {
    HttpError(NotFound, statusCode, detail)
  }

  /** `UnAuthorizedException(detail, status_code)` with the class's defaults. */
  function UnauthorizedException(detail: string := "Unauthorized access", statusCode: int := 401): HttpError
  {
    HttpError(Unauthorized, statusCode, detail)
  }

  /** `BadRequestException(detail, status_code)` with the class's defaults. */
  function BadRequestException(detail: string := "Bad request", statusCode: int := 400): HttpError
  {
    HttpError(BadRequest, statusCode, detail)
  }

  /** Raised with no arguments, each kind carries its documented status and message. */
  lemma DefaultErrors()
    ensures NotFoundException() == HttpError(NotFound, 404, "Resource not found")
    ensures UnauthorizedException() == HttpError(Unauthorized, 401, "Unauthorized access")
    ensures BadRequestException() == HttpError(BadRequest, 400, "Bad request")
  {
  }

  /** Passing only a custom detail keeps the kind's default status code and uses that detail. */
  lemma CustomDetailKeepsStatus(detail: string)
    ensures NotFoundException(detail) == HttpError(NotFound, 404, detail)
    ensures UnauthorizedException(detail) == HttpError(Unauthorized, 401, detail)
    ensures BadRequestException(detail) == HttpError(BadRequest, 400, detail)
  {
  }
}
