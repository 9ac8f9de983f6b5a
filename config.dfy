/**
  `Config::from_env` (config.rs): the process environment, seen as a map from
  variable name to value, turned into the service configuration.
 */
module Config {
  import opened Wrappers
  import opened Decimal

  type Env = map<string, string>

  const DATABASE_URL: string := "DATABASE_URL"
  const NASA_API_URL: string := "NASA_API_URL"
  const NASA_API_KEY: string := "NASA_API_KEY"
  const WHERE_ISS_URL: string := "WHERE_ISS_URL"
  const FETCH_EVERY_SECONDS: string := "FETCH_EVERY_SECONDS"
  const ISS_EVERY_SECONDS: string := "ISS_EVERY_SECONDS"
  const APOD_EVERY_SECONDS: string := "APOD_EVERY_SECONDS"
  const NEO_EVERY_SECONDS: string := "NEO_EVERY_SECONDS"
  const DONKI_EVERY_SECONDS: string := "DONKI_EVERY_SECONDS"
  const SPACEX_EVERY_SECONDS: string := "SPACEX_EVERY_SECONDS"

  const MISSING_DATABASE_URL: string := "DATABASE_URL is required"
  const DEFAULT_NASA_API_URL: string := "https://visualization.osdr.nasa.gov/biodata/api/v2/datasets/?format=json"
  const DEFAULT_WHERE_ISS_URL: string := "https://api.wheretheiss.at/v1/satellites/25544"

  datatype Config = Config(
    databaseUrl: string,
    nasaApiUrl: string,
    nasaApiKey: string,
    whereIssUrl: string,
    fetchEverySeconds: u64,
    issEverySeconds: u64,
    apodEverySeconds: u64,
    neoEverySeconds: u64,
    donkiEverySeconds: u64,
    spacexEverySeconds: u64)

  /** `env::var(key).unwrap_or(default)` for string settings: the value verbatim when set. */
  function VarOr(env: Env, key: string, default: string): (r: string)
    ensures key in env ==> r == env[key]
    ensures key !in env ==> r == default
  {
    if key in env then env[key] else default
  }

  /** `parse_env_u64`: the value read as a u64, or `default` when the variable is unset or does not parse. */
  function ParseEnvU64(env: Env, key: string, default: u64): (r: u64)
    ensures key !in env ==> r == default
    ensures key in env && ParseU64(env[key]).None? ==> r == default
    ensures key in env && ParseU64(env[key]).Some? ==> r == ParseU64(env[key]).value
  {
    if key in env && ParseU64(env[key]).Some? then ParseU64(env[key]).value else default
  }

  /** `Config::from_env`: fails only when DATABASE_URL is unset; every other setting has a default. */
  function FromEnv(env: Env): (r: Result<Config, string>)
    ensures r.Err? <==> DATABASE_URL !in env
    ensures r.Err? ==> r.error == MISSING_DATABASE_URL
    ensures r.Ok? ==> r.value.databaseUrl == env[DATABASE_URL]
  {
    if DATABASE_URL !in env then
      Err(MISSING_DATABASE_URL)
    else
      Ok(Config(
        databaseUrl := env[DATABASE_URL],
        nasaApiUrl := VarOr(env, NASA_API_URL, DEFAULT_NASA_API_URL),
        nasaApiKey := VarOr(env, NASA_API_KEY, ""),
        whereIssUrl := VarOr(env, WHERE_ISS_URL, DEFAULT_WHERE_ISS_URL),
        fetchEverySeconds := ParseEnvU64(env, FETCH_EVERY_SECONDS, 600),
        issEverySeconds := ParseEnvU64(env, ISS_EVERY_SECONDS, 120),
        apodEverySeconds := ParseEnvU64(env, APOD_EVERY_SECONDS, 43200),
        neoEverySeconds := ParseEnvU64(env, NEO_EVERY_SECONDS, 7200),
        donkiEverySeconds := ParseEnvU64(env, DONKI_EVERY_SECONDS, 3600),
        spacexEverySeconds := ParseEnvU64(env, SPACEX_EVERY_SECONDS, 3600)))
  }

  /** A set value that `from_str` rejects (empty, signed negative, a non-digit, above 2^64 - 1) falls back to the default. */
  lemma ParseEnvU64Fallback(env: Env, key: string, default: u64)
    requires key in env
    requires var v := env[key];
      || v == ""
      || (|v| > 0 && v[0] == '-')
      || (exists i :: 0 <= i < |v| && !IsDigit(v[i]) && (i > 0 || v[i] != '+'))
      || (AllDigits(v) && DigitsValue(v) > U64_MAX)
    ensures ParseEnvU64(env, key, default) == default
  {
    ParseU64Rejects(env[key]);
  }

  /**
    A set value made of decimal digits, with or without a leading '+', is the
    number those digits denote whenever it fits in a u64; leading zeros are
    read as `from_str` reads them ("0600" is 600).
   */
  lemma ParseEnvU64Reads(env: Env, key: string, default: u64, d: string)
    requires key in env && (env[key] == d || env[key] == "+" + d)
    requires |d| > 0 && AllDigits(d) && DigitsValue(d) <= U64_MAX
    ensures ParseEnvU64(env, key, default) == DigitsValue(d)
  {
  }

  /** With only DATABASE_URL set, every other setting takes its default. */
  lemma FromEnvDefaults(url: string)
    ensures FromEnv(map[DATABASE_URL := url]) == Ok(Config(
      url, DEFAULT_NASA_API_URL, "", DEFAULT_WHERE_ISS_URL, 600, 120, 43200, 7200, 3600, 3600))
  {
  }

  /** String settings: taken verbatim when set, otherwise their fixed defaults (the API key defaults to ""). */
  lemma FromEnvStringSettings(env: Env)
    requires DATABASE_URL in env
    ensures var c := FromEnv(env).value;
      && (NASA_API_URL in env ==> c.nasaApiUrl == env[NASA_API_URL])
      && (NASA_API_URL !in env ==> c.nasaApiUrl == DEFAULT_NASA_API_URL)
      && (NASA_API_KEY in env ==> c.nasaApiKey == env[NASA_API_KEY])
      && (NASA_API_KEY !in env ==> c.nasaApiKey == "")
      && (WHERE_ISS_URL in env ==> c.whereIssUrl == env[WHERE_ISS_URL])
      && (WHERE_ISS_URL !in env ==> c.whereIssUrl == DEFAULT_WHERE_ISS_URL)
  {
  }

  /** An interval setting that is unset or unparsable takes its default: 600, 120, 43200, 7200, 3600, 3600. */
  lemma FromEnvIntervalDefaults(env: Env)
    requires DATABASE_URL in env
    ensures var c := FromEnv(env).value;
      && (Unusable(env, FETCH_EVERY_SECONDS) ==> c.fetchEverySeconds == 600)
      && (Unusable(env, ISS_EVERY_SECONDS) ==> c.issEverySeconds == 120)
      && (Unusable(env, APOD_EVERY_SECONDS) ==> c.apodEverySeconds == 43200)
      && (Unusable(env, NEO_EVERY_SECONDS) ==> c.neoEverySeconds == 7200)
      && (Unusable(env, DONKI_EVERY_SECONDS) ==> c.donkiEverySeconds == 3600)
      && (Unusable(env, SPACEX_EVERY_SECONDS) ==> c.spacexEverySeconds == 3600)
  {
  }

  /** An interval setting that `u64::from_str` accepts is used as given: FETCH_EVERY_SECONDS=30 gives 30 seconds. */
  lemma FromEnvIntervalsParsed(env: Env)
    requires DATABASE_URL in env
    ensures var c := FromEnv(env).value;
      && (!Unusable(env, FETCH_EVERY_SECONDS) ==> c.fetchEverySeconds == ParseU64(env[FETCH_EVERY_SECONDS]).value)
      && (!Unusable(env, ISS_EVERY_SECONDS) ==> c.issEverySeconds == ParseU64(env[ISS_EVERY_SECONDS]).value)
      && (!Unusable(env, APOD_EVERY_SECONDS) ==> c.apodEverySeconds == ParseU64(env[APOD_EVERY_SECONDS]).value)
      && (!Unusable(env, NEO_EVERY_SECONDS) ==> c.neoEverySeconds == ParseU64(env[NEO_EVERY_SECONDS]).value)
      && (!Unusable(env, DONKI_EVERY_SECONDS) ==> c.donkiEverySeconds == ParseU64(env[DONKI_EVERY_SECONDS]).value)
      && (!Unusable(env, SPACEX_EVERY_SECONDS) ==> c.spacexEverySeconds == ParseU64(env[SPACEX_EVERY_SECONDS]).value)
  {
  }

  /** A digit string set for FETCH_EVERY_SECONDS is the sync interval: "30" and "+030" both give 30. */
  lemma FromEnvFetchInterval(env: Env, d: string)
    requires DATABASE_URL in env
    requires FETCH_EVERY_SECONDS in env && (env[FETCH_EVERY_SECONDS] == d || env[FETCH_EVERY_SECONDS] == "+" + d)
    requires |d| > 0 && AllDigits(d) && DigitsValue(d) <= U64_MAX
    ensures FromEnv(env).value.fetchEverySeconds == DigitsValue(d)
  {
    ParseEnvU64Reads(env, FETCH_EVERY_SECONDS, 600, d);
  }

  /** The variable is unset, or set to something `u64::from_str` rejects. */
  predicate Unusable(env: Env, key: string) {
    key !in env || ParseU64(env[key]).None?
  }

  /** Both environments agree on `key`: unset in both, or set to the same value. */
  predicate SameVar(e1: Env, e2: Env, key: string) {
    (key in e1 <==> key in e2) && (key in e1 ==> e1[key] == e2[key])
  }

  /** Each setting depends on its own variable only: two environments that agree on it agree on the field. */
  lemma FieldsDependOnOwnVariable(e1: Env, e2: Env)
    requires DATABASE_URL in e1 && DATABASE_URL in e2
    ensures var c1, c2 := FromEnv(e1).value, FromEnv(e2).value;
      && (SameVar(e1, e2, DATABASE_URL) ==> c1.databaseUrl == c2.databaseUrl)
      && (SameVar(e1, e2, NASA_API_URL) ==> c1.nasaApiUrl == c2.nasaApiUrl)
      && (SameVar(e1, e2, NASA_API_KEY) ==> c1.nasaApiKey == c2.nasaApiKey)
      && (SameVar(e1, e2, WHERE_ISS_URL) ==> c1.whereIssUrl == c2.whereIssUrl)
      && (SameVar(e1, e2, FETCH_EVERY_SECONDS) ==> c1.fetchEverySeconds == c2.fetchEverySeconds)
      && (SameVar(e1, e2, ISS_EVERY_SECONDS) ==> c1.issEverySeconds == c2.issEverySeconds)
      && (SameVar(e1, e2, APOD_EVERY_SECONDS) ==> c1.apodEverySeconds == c2.apodEverySeconds)
      && (SameVar(e1, e2, NEO_EVERY_SECONDS) ==> c1.neoEverySeconds == c2.neoEverySeconds)
      && (SameVar(e1, e2, DONKI_EVERY_SECONDS) ==> c1.donkiEverySeconds == c2.donkiEverySeconds)
      && (SameVar(e1, e2, SPACEX_EVERY_SECONDS) ==> c1.spacexEverySeconds == c2.spacexEverySeconds)
  {
  }
}
