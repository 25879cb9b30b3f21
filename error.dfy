/** The server's error type (`src/error.rs`) and the HTTP status each variant becomes. */
module Errors {
  import opened Http
  import Users

  /** `ApplicationError`. Variants that wrap a library error carry its message. */
  datatype AppError =
    | Sqlite(msg: string)
    | IO(msg: string)
    | JsonParsing(msg: string)
    | AnkiError(msg: string)
    | AnkiFileIoError(msg: string)
    | ZipParsing(msg: string)
    | Actix(msg: string)
    | Rustls(msg: string)
    | Utf8Error(msg: string)
    | ValueNotFound(msg: string)
    | ParseConfig(msg: string)
    | UserError(user: Users.UserError)
    | SerdeTomlSerializingError(msg: string)
    | SerdeTomlDeserializingError(msg: string)
    | SessionError(msg: string)
    | ParseGET(msg: string)
    | Multipart(msg: string)
    | InternalServerError(msg: string)
    | UrlNotFound(msg: string)

  /** `error_response`: 403 for user errors, 404 for an unknown URL, 500 for
      everything else; no body. */
  function ErrorResponse(e: AppError): (r: HttpResponse)
    ensures r.status == FORBIDDEN <==> e.UserError?
    ensures r.status == NOT_FOUND <==> e.UrlNotFound?
    ensures !e.UserError? && !e.UrlNotFound? ==> r.status == INTERNAL_SERVER_ERROR
    ensures r.headers == [] && r.body == NoBody
  {
    match e
    case UserError(_) => HttpResponse(FORBIDDEN, [], NoBody)
    case UrlNotFound(_) => HttpResponse(NOT_FOUND, [], NoBody)
    case _ => HttpResponse(INTERNAL_SERVER_ERROR, [], NoBody)
  }

  /** The response depends only on the variant's class (user error, unknown
      URL, anything else), never on the message or the other variant. */
  lemma StatusByVariant(e1: AppError, e2: AppError)
    requires e1.UserError? == e2.UserError? && e1.UrlNotFound? == e2.UrlNotFound?
    ensures ErrorResponse(e1) == ErrorResponse(e2)
  {
  }

  /** Authentication and session failures are not treated alike: a bad
      password is forbidden, an unresolvable session key is a server error. */
  lemma AuthenticationForbiddenSessionNot(m: string)
    ensures ErrorResponse(UserError(Users.Authentication(m))).status == FORBIDDEN
    ensures ErrorResponse(SessionError(m)).status == INTERNAL_SERVER_ERROR
  {
  }
}
