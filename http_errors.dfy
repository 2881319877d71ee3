/**
 * The exceptions the services and guards raise, and the exception values the
 * interceptor and the exception filter receive.
 */
module HttpErrors {
  import opened JsonValues

  /** A Nest built-in HTTP exception: its status code and the message it was constructed with. */
  datatype HttpError = HttpError(status: int, message: string)

  function Unauthorized(message: string): HttpError { HttpError(401, message) }
  function Forbidden(message: string): HttpError { HttpError(403, message) }
  function Conflict(message: string): HttpError { HttpError(409, message) }
  function InternalServerError(message: string): HttpError { HttpError(500, message) }

  /** The `error` text Nest's built-in exception classes put beside the message. */
  function ReasonPhrase(status: int): string {
    if status == 401 then "Unauthorized"
    else if status == 403 then "Forbidden"
    else if status == 409 then "Conflict"
    else if status == 500 then "Internal Server Error"
    else ""
  }

  /** What `HttpException.getResponse()` returns: a string or a plain object. */
  datatype ExceptionResponse = RString(text: string) | RObject(fields: map<string, Json>)

  /** A thrown value, as seen by a `catch`. */
  datatype Exception =
      /** an instance of HttpException, with its status and response */
    | HttpException(status: int, response: ExceptionResponse, stack: string)
      /** any other Error instance; `statusProperty` is whatever its `status` property holds */
    | ErrorInstance(name: string, message: string, statusProperty: Json, stack: string)
      /** a thrown value that is not an Error */
    | ThrownValue(value: Json)

  /**
   * The exception `throw new UnauthorizedException(message)` (and its siblings)
   * raises. Nest builds the response object from the message; an empty message
   * is falsy, and Nest then puts the reason phrase in its place and omits `error`.
   */
  function Raise(e: HttpError, stack: string): Exception {
    var body :=
      if e.message == "" then map["statusCode" := JNum(e.status), "message" := JStr(ReasonPhrase(e.status))]
      else map["statusCode" := JNum(e.status), "message" := JStr(e.message), "error" := JStr(ReasonPhrase(e.status))];
    HttpException(e.status, RObject(body), stack)
  }
}
