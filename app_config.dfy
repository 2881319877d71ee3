/** The configuration values the core reads through ConfigService, with their hard-coded fallbacks. */
module AppConfig {
  import opened Wrappers

  /** `None` is an unset variable. */
  datatype Config = Config(
    apiSecretKey: Option<string>,
    jwtRefreshSecret: Option<string>,
    jwtRefreshExpiration: Option<string>)

  const DEFAULT_API_KEY: string := "your-server-api-secret-key"
  const DEFAULT_REFRESH_SECRET: string := "your-refresh-secret-key"
  const DEFAULT_REFRESH_EXPIRATION: string := "7d"

  /** `configService.get(name) || fallback`: an unset or empty value falls back. */
  function OrDefault(v: Option<string>, fallback: string): (r: string)
    ensures v.Some? && v.value != "" ==> r == v.value
    ensures v.None? || v.value == "" ==> r == fallback
  {
    match v
    case Some(s) => if s != "" then s else fallback
    case None => fallback
  }

  /** The API key both guards compare against; never empty. */
  function ApiKey(cfg: Config): (k: string)
    ensures k == OrDefault(cfg.apiSecretKey, DEFAULT_API_KEY)
    ensures k != ""
    ensures cfg.apiSecretKey.None? ==> k == DEFAULT_API_KEY
  {
    OrDefault(cfg.apiSecretKey, DEFAULT_API_KEY)
  }
}
