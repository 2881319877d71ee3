/** ApiKeyGuard: admits a request only when its `x-api-key` header equals the configured key. */
module ApiKeyGuard {
  import opened Wrappers
  import opened HttpErrors
  import opened AppConfig

  const API_KEY_HEADER: string := "x-api-key"
  const MISSING_KEY: string := "API Key is missing"
  const INVALID_KEY: string := "Invalid API Key"

  /** `request.headers[name]`; header names arrive lower-cased. */
  function HeaderValue(headers: map<string, string>, name: string): Option<string> {
    if name in headers then Some(headers[name]) else None
  }

  /** `apiKey` is truthy: present and not empty. */
  predicate Provided(key: Option<string>) {
    key.Some? && key.value != ""
  }

  /**
   * `canActivate`: a missing or empty key is "API Key is missing", a different
   * key "Invalid API Key", the configured key `true`. It never answers `false`
   * and, being a function of the headers, changes nothing on the request.
   */
  function CanActivate(headers: map<string, string>, cfg: Config): (r: Result<bool, HttpError>)
    ensures r.Success? <==> HeaderValue(headers, API_KEY_HEADER) == Some(ApiKey(cfg))
    ensures r.Success? ==> r.value
    ensures !Provided(HeaderValue(headers, API_KEY_HEADER)) ==> r == Failure(Unauthorized(MISSING_KEY))
    ensures Provided(HeaderValue(headers, API_KEY_HEADER)) && r.Failure? ==> r == Failure(Unauthorized(INVALID_KEY))
  {
    var apiKey := HeaderValue(headers, API_KEY_HEADER);
    if !Provided(apiKey) then Failure(Unauthorized(MISSING_KEY))
    else if apiKey.value != ApiKey(cfg) then Failure(Unauthorized(INVALID_KEY))
    else Success(true)
  }

  /** With no API_SECRET_KEY set, the hard-coded default key is accepted. */
  lemma DefaultKeyAccepted(headers: map<string, string>, cfg: Config)
    requires cfg.apiSecretKey.None?
    requires HeaderValue(headers, API_KEY_HEADER) == Some(DEFAULT_API_KEY)
    ensures CanActivate(headers, cfg) == Success(true)
  {
  }
}
