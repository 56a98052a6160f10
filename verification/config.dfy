/**
 * Configuration loading from the process environment. The environment is a
 * parameter: a map from variable names to values, where an absent name reads
 * as the empty string, as `os.Getenv` does.
 */
module Config {
  import opened Wrappers
  import Strconv
  import DomainError

  type Env = map<string, string>

  /** `os.Getenv`: "" for an unset variable. */
  function Getenv(env: Env, key: string): string
  {
    if key in env then env[key] else ""
  }

  /** `getEnv`: the variable's value unless it is unset or empty. */
  function GetEnv(env: Env, key: string, fallback: string): (v: string)
    ensures key in env && env[key] != "" ==> v == env[key]
    ensures key !in env || env[key] == "" ==> v == fallback
  {
    var value := Getenv(env, key);
    if value != "" then value else fallback
  }

  /** `getEnvAsInt`: the variable as a decimal integer, or the fallback when
      it is unset, empty or not an integer that fits Go's `int`. */
  function GetEnvAsInt(env: Env, key: string, fallback: int): (v: int)
    ensures key !in env || Strconv.Atoi(env[key]).None? ==> v == fallback
    ensures key in env && Strconv.Atoi(env[key]).Some? ==> v == Strconv.Atoi(env[key]).value
  {
    var value := Getenv(env, key);
    if value != "" then
      match Strconv.Atoi(value)
      case Some(n) => n
      case None => fallback
    else fallback
  }

  /** `getEnvAsBool`: the variable as a Go boolean literal, or the fallback. */
  function GetEnvAsBool(env: Env, key: string, fallback: bool): (v: bool)
    ensures key !in env || Strconv.ParseBool(env[key]).None? ==> v == fallback
    ensures key in env && Strconv.ParseBool(env[key]).Some? ==> v == Strconv.ParseBool(env[key]).value
  {
    var value := Getenv(env, key);
    if value != "" then
      match Strconv.ParseBool(value)
      case Some(b) => b
      case None => fallback
    else fallback
  }

  /** A value written with `strconv.Itoa` reads back unchanged. */
  lemma GetEnvAsIntReadsItoa(env: Env, key: string, n: int, fallback: int)
    requires Strconv.InInt64(n)
    requires key in env && env[key] == Strconv.Itoa(n)
    ensures GetEnvAsInt(env, key, fallback) == n
  {
    Strconv.AtoiItoa(n);
  }

  /** "true"/"1" and "false"/"0" read as booleans; anything else, such as
      "yes", falls back. */
  lemma GetEnvAsBoolSpellings(env: Env, key: string, fallback: bool)
    ensures key in env && env[key] in {"1", "true", "TRUE", "True", "t", "T"} ==> GetEnvAsBool(env, key, fallback)
    ensures key in env && env[key] in {"0", "false", "FALSE", "False", "f", "F"} ==> !GetEnvAsBool(env, key, fallback)
    ensures key in env && env[key] == "yes" ==> GetEnvAsBool(env, key, fallback) == fallback
  {
  }

  datatype ServerConfig = ServerConfig(port: string, host: string)
  datatype DatabaseConfig = DatabaseConfig(host: string, port: string, user: string, pass: string,
                                           name: string, sslMode: string)
  datatype JwtConfig = JwtConfig(secret: string)
  datatype Config = Config(server: ServerConfig, database: DatabaseConfig, jwt: JwtConfig)

  const DefaultJwtSecret: string := "your-secret-key"

  /** `Load`: every field from its variable or its default; the error result
      is always nil. */
  function Load(env: Env): (r: Result<Config, DomainError.GoError>)
    ensures r.Success?
    ensures r.value.jwt.secret == GetEnv(env, "JWT_SECRET", DefaultJwtSecret)
    ensures r.value.jwt.secret != ""
    ensures r.value.server.port == GetEnv(env, "SERVER_PORT", "8080")
    ensures r.value.database.name == GetEnv(env, "DB_NAME", "yopatungan")
  {
    Success(Config(
      ServerConfig(GetEnv(env, "SERVER_PORT", "8080"), GetEnv(env, "SERVER_HOST", "0.0.0.0")),
      DatabaseConfig(GetEnv(env, "DB_HOST", "localhost"), GetEnv(env, "DB_PORT", "5432"),
                     GetEnv(env, "DB_USER", "postgres"), GetEnv(env, "DB_PASS", "password"),
                     GetEnv(env, "DB_NAME", "yopatungan"), GetEnv(env, "DB_SSLMODE", "disable")),
      JwtConfig(GetEnv(env, "JWT_SECRET", DefaultJwtSecret))))
  }

  /** The signing secret the process runs with. */
  function JwtSecret(env: Env): string
  {
    Load(env).value.jwt.secret
  }

  /** An unset and an empty `JWT_SECRET` both give the built-in default. */
  lemma SecretDefault(env: Env)
    ensures Getenv(env, "JWT_SECRET") == "" ==> JwtSecret(env) == "your-secret-key"
    ensures Getenv(env, "JWT_SECRET") != "" ==> JwtSecret(env) == env["JWT_SECRET"]
  {
  }
}
