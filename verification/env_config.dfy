/** `getConfig` (`src/config/env.ts`): the two settings the client needs, checked in a
    fixed order. A missing setting is the empty string; URL parsing is a parameter. */
module EnvConfig {
  import opened Wrappers
  import opened Strings

  datatype Config = Config(supabaseUrl: string, supabaseAnonKey: string)

  /** The checks, in the order `getConfig` makes them. */
  datatype Check = UrlPresent | KeyPresent | UrlFormat | KeyFormat

  const Order: seq<Check> := [UrlPresent, KeyPresent, UrlFormat, KeyFormat]

  predicate Passes(c: Check, url: string, key: string, parses: string -> bool)
  {
    match c
    case UrlPresent => url != ""
    case KeyPresent => key != ""
    case UrlFormat => parses(url)
    case KeyFormat => StartsWith(key, "eyJ")
  }

  /** The message of the `Error` thrown when a check fails. */
  function Message(c: Check): string
  {
    match c
    case UrlPresent =>
      "Missing required environment variable: EXPO_PUBLIC_SUPABASE_URL\nPlease check your .env file or app.config.js configuration"
    case KeyPresent =>
      "Missing required environment variable: EXPO_PUBLIC_SUPABASE_ANON_KEY\nPlease check your .env file or app.config.js configuration"
    case UrlFormat => "Invalid EXPO_PUBLIC_SUPABASE_URL format. Must be a valid URL."
    case KeyFormat => "Invalid EXPO_PUBLIC_SUPABASE_ANON_KEY format. Must be a valid JWT token."
  }

  /** `getConfig()`: the settings unchanged, or the check whose message it throws. */
  function GetConfig(url: string, key: string, parses: string -> bool): (r: Result<Config, Check>)
    ensures url == "" ==> r == Err(UrlPresent)
    ensures r.Ok? ==> r.value == Config(url, key)
  {
    if url == "" then Err(UrlPresent)
    else if key == "" then Err(KeyPresent)
    else if !parses(url) then Err(UrlFormat)
    else if !StartsWith(key, "eyJ") then Err(KeyFormat)
    else Ok(Config(url, key))
  }

  /** The configuration is returned exactly when every check passes, and otherwise the
      error is the first check in order that fails. */
  lemma GetConfigFirstFailure(url: string, key: string, parses: string -> bool)
    ensures GetConfig(url, key, parses).Ok? <==> forall i :: 0 <= i < |Order| ==> Passes(Order[i], url, key, parses)
    ensures forall i :: 0 <= i < |Order| ==>
      (GetConfig(url, key, parses) == Err(Order[i]) <==>
        !Passes(Order[i], url, key, parses) && forall j :: 0 <= j < i ==> Passes(Order[j], url, key, parses))
  {
    assert Order[0] == UrlPresent && Order[1] == KeyPresent && Order[2] == UrlFormat && Order[3] == KeyFormat;
  }
}
