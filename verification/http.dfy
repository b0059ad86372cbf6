/**
 The action results the account controller returns, as values.
 */
module Http {
  import opened Wrappers
  import opened Identity

  /** `ErrorResponse`: a list of human-readable messages. */
  datatype ErrorResponse = ErrorResponse(errors: seq<string>)

  /** `UserInfo`: the session descriptor returned by a successful login. */
  datatype UserInfo = UserInfo(email: string, roles: seq<string>)

  /** The body of a 400 reply: the controller's own messages, or the access-code service's error as is. */
  datatype BadRequestBody =
    | Messages(response: ErrorResponse)
    | AccessCodeRejected(error: AccessCodeError)

  /** The body of a 200 reply: none (`OkResult`), or the logged-in user. */
  datatype OkBody = NoBody | LoggedIn(info: UserInfo)

  /**
   `Ok(...)`/`OkResult`, `BadRequest(...)`, and `UnauthorizedResult` (no
   detail) or `UnauthorizedObjectResult` (wrapping an identity result).
   */
  datatype Response =
    | Ok(body: OkBody)
    | BadRequest(error: BadRequestBody)
    | Unauthorized(detail: Option<IdentityResult>)

  /** The HTTP status code each kind of result is sent with. */
  function StatusCode(r: Response): (code: int)
    ensures code in {200, 400, 401}
    ensures code == 200 <==> r.Ok?
    ensures code == 400 <==> r.BadRequest?
    ensures code == 401 <==> r.Unauthorized?
  {
    match r
    case Ok(_) => 200
    case BadRequest(_) => 400
    case Unauthorized(_) => 401
  }

  /** A bad request carrying exactly one message of the controller's own. */
  function BadRequestMessage(message: string): (r: Response) {
    BadRequest(Messages(ErrorResponse([message])))
  }
}
