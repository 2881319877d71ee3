/**
 * JwtOrApiKeyGuard: a request with an `x-api-key` header is judged on that key
 * alone; a request without one falls back to passport's JWT check, whose
 * outcome is an input here (the JWT strategy is not part of this model).
 */
module JwtOrApiKeyGuard {
  import opened Wrappers
  import opened HttpErrors
  import opened AppConfig
  import opened Repository
  import ApiKeyGuard

  /** The identity attached to `request.user`; `source` is set only for the API-key principal. */
  datatype Principal = Principal(id: int, email: string, empId: string, source: Option<string>)

  /** The sentinel server-to-server identity an accepted API key stands for. */
  const API_PRINCIPAL: Principal := Principal(0, "server-to-server", "API_ACCESS", Some("api-key"))

  const INVALID_CREDENTIALS: string := "Invalid credentials. Please provide a valid JWT token or API key"

  /** What `super.canActivate` concludes: the user it authenticated, or the failure it threw. */
  datatype JwtCheck = JwtAccepted(user: Principal) | JwtRejected(reason: HttpError)

  /**
   * The decision: the principal to attach, or the exception. A provided key
   * never consults the JWT; without one, every JWT failure becomes the same 401.
   */
  function Decide(headers: map<string, string>, cfg: Config, jwt: JwtCheck): (d: Result<Principal, HttpError>)
    ensures ApiKeyGuard.Provided(ApiKeyGuard.HeaderValue(headers, ApiKeyGuard.API_KEY_HEADER)) ==>
      d == if ApiKeyGuard.HeaderValue(headers, ApiKeyGuard.API_KEY_HEADER) == Some(ApiKey(cfg))
           then Success(API_PRINCIPAL) else Failure(Unauthorized(ApiKeyGuard.INVALID_KEY))
    ensures !ApiKeyGuard.Provided(ApiKeyGuard.HeaderValue(headers, ApiKeyGuard.API_KEY_HEADER)) ==>
      d == if jwt.JwtAccepted? then Success(jwt.user) else Failure(Unauthorized(INVALID_CREDENTIALS))
  {
    var apiKey := ApiKeyGuard.HeaderValue(headers, ApiKeyGuard.API_KEY_HEADER);
    if ApiKeyGuard.Provided(apiKey) then
      if apiKey.value == ApiKey(cfg) then Success(API_PRINCIPAL)
      else Failure(Unauthorized(ApiKeyGuard.INVALID_KEY))
    else
      match jwt
      case JwtAccepted(user) => Success(user)
      case JwtRejected(_) => Failure(Unauthorized(INVALID_CREDENTIALS))
  }

  /** The request object; `user` is what the guard, or passport on its behalf, attaches. */
  class Request {
    const headers: map<string, string>
    var user: Option<Principal>

    constructor (headers: map<string, string>)
      ensures this.headers == headers && user == None
    {
      this.headers := headers;
      user := None;
    }
  }

  /** `canActivate`: attaches the decided principal and answers `true`, or throws and leaves the request alone. */
  method CanActivate(request: Request, cfg: Config, jwt: JwtCheck) returns (r: Result<bool, HttpError>)
    modifies request
    ensures var d := Decide(request.headers, cfg, jwt);
      && (d.Success? ==> r == Success(true) && request.user == Some(d.value))
      && (d.Failure? ==> r == Failure(d.error) && request.user == old(request.user))
  {
    var apiKey := ApiKeyGuard.HeaderValue(request.headers, ApiKeyGuard.API_KEY_HEADER);
    if ApiKeyGuard.Provided(apiKey) {
      if apiKey.value == ApiKey(cfg) {
        request.user := Some(API_PRINCIPAL);
        return Success(true);
      } else {
        return Failure(Unauthorized(ApiKeyGuard.INVALID_KEY));
      }
    }
    match jwt
    case JwtAccepted(user) =>
      request.user := Some(user);
      r := Success(true);
    case JwtRejected(_) =>
      r := Failure(Unauthorized(INVALID_CREDENTIALS));
  }

  /** With a key provided, the JWT outcome is irrelevant: a valid bearer token cannot rescue a wrong key. */
  lemma KeyDecidesAlone(headers: map<string, string>, cfg: Config, jwt1: JwtCheck, jwt2: JwtCheck)
    requires ApiKeyGuard.Provided(ApiKeyGuard.HeaderValue(headers, ApiKeyGuard.API_KEY_HEADER))
    ensures Decide(headers, cfg, jwt1) == Decide(headers, cfg, jwt2)
  {
  }

  /** Without a key, the caller cannot tell one JWT failure from another. */
  lemma JwtFailuresIndistinguishable(headers: map<string, string>, cfg: Config, e1: HttpError, e2: HttpError)
    ensures Decide(headers, cfg, JwtRejected(e1)) == Decide(headers, cfg, JwtRejected(e2))
  {
  }

  /**
   * The two guards agree on keys: where ApiKeyGuard admits, this guard admits as
   * the sentinel; where it finds a wrong key, this guard refuses the same way;
   * where the key is missing, this guard defers to the JWT.
   */
  lemma GuardsAgree(headers: map<string, string>, cfg: Config, jwt: JwtCheck)
    ensures ApiKeyGuard.CanActivate(headers, cfg) == Success(true) ==> Decide(headers, cfg, jwt) == Success(API_PRINCIPAL)
    ensures ApiKeyGuard.CanActivate(headers, cfg) == Failure(Unauthorized(ApiKeyGuard.INVALID_KEY)) ==>
      Decide(headers, cfg, jwt) == Failure(Unauthorized(ApiKeyGuard.INVALID_KEY))
    ensures ApiKeyGuard.CanActivate(headers, cfg) == Failure(Unauthorized(ApiKeyGuard.MISSING_KEY)) ==>
      Decide(headers, cfg, jwt) == Decide(map[], cfg, jwt)
  {
  }

  /** The sentinel id 0 belongs to no stored employee, since serial ids start at 1. */
  lemma SentinelIsNoEmployee(rows: seq<Entities.Employee>, nextId: int)
    requires TableInvariant(rows, nextId)
    ensures FindById(rows, API_PRINCIPAL.id).None?
  {
  }
}
