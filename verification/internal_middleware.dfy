/**
 * The monolith's authentication middleware: the same three header checks as
 * the gateway's, validation under the secret the configuration loads from
 * the environment, and on success the whole claims value stored under the
 * session key "sess".
 */
module AuthMiddleware {
  import opened Wrappers
  import opened Strings
  import opened RequestContext
  import Jwt
  import PkgJwt
  import LibJwt
  import Config
  import Bearer
  import Language
  import Messages
  import Locale

  const SessKey: string := "sess"
  const StatusUnauthorized: int := 401

  /** `AuthMiddleware()` applied to a request with context `c` and
      `Authorization` header `header`, the environment being `env`. */
  function AuthMiddleware(codec: Jwt.Codec<Jwt.Identity>, env: Config.Env, now: int, c: Gin, header: string)
    : (g: Gate<string>)
    ensures g.Abort? ==>
              g == Abort(StatusUnauthorized, Messages.GetErrorMessage(Messages.Unauthorized, Language.GetLangFromGin(c)))
    ensures g.Next? <==>
              && Bearer.ExtractToken(header).Some?
              && PkgJwt.ValidateToken(codec, Config.JwtSecret(env), Bearer.ExtractToken(header).value, now).Success?
    ensures g.Next? ==>
              && g.ctx.request == c.request
              && g.ctx.keys == c.keys[SessKey := ClaimsValue(
                   PkgJwt.ValidateToken(codec, Config.JwtSecret(env), Bearer.ExtractToken(header).value, now).value)]
  {
    var unauthorized := Abort(StatusUnauthorized, Messages.GetErrorMessage(Messages.Unauthorized, Language.GetLangFromGin(c)));
    if header == "" then unauthorized
    else if !HasPrefix(header, Bearer.Prefix) then unauthorized
    else
      var token := TrimPrefix(header, Bearer.Prefix);
      if token == "" then unauthorized
      else match PkgJwt.ValidateToken(codec, Config.JwtSecret(env), token, now)
        case Failure(_) => unauthorized
        case Success(claims) => Next(Gin(c.keys[SessKey := ClaimsValue(claims)], c.request))
  }

  /** End to end: a token generated in the same environment admits the
      request for a day, and the session holds the claims it was minted with. */
  lemma GeneratedTokenAdmitted(codec: Jwt.Codec<Jwt.Identity>, env: Config.Env, user: LibJwt.UserPayload,
                               now: int, later: int, c: Gin)
    requires Jwt.Faithful(codec)
    requires now <= later < now + Jwt.Day
    ensures AuthMiddleware(codec, env, later, c, Bearer.Prefix + PkgJwt.GenerateToken(codec, env, user, now))
            == Next(Gin(c.keys[SessKey := ClaimsValue(LibJwt.ClaimsFor(user, now, Jwt.Day))], c.request))
  {
    var token := PkgJwt.GenerateToken(codec, env, user, now);
    Bearer.ExtractTokenExactly(Bearer.Prefix + token, token);
    Jwt.IssueParseRoundTrip(codec, Config.JwtSecret(env), LibJwt.ClaimsFor(user, now, Jwt.Day), later);
  }

  /** A token generated under a different `JWT_SECRET` is refused. */
  lemma ForeignSecretRefused(codec: Jwt.Codec<Jwt.Identity>, env: Config.Env, issuer: Config.Env,
                             user: LibJwt.UserPayload, now: int, later: int, c: Gin)
    requires Jwt.Faithful(codec)
    requires Config.JwtSecret(issuer) != Config.JwtSecret(env)
    ensures AuthMiddleware(codec, env, later, c, Bearer.Prefix + PkgJwt.GenerateToken(codec, issuer, user, now)).Abort?
  {
    var token := PkgJwt.GenerateToken(codec, issuer, user, now);
    Bearer.ExtractTokenExactly(Bearer.Prefix + token, token);
    PkgJwt.WrongSecretRejected(codec, issuer, Config.JwtSecret(env), user, now, later);
  }

  /** A request without a header is answered in the language the language
      middleware selected. */
  lemma MissingHeaderLocalised(codec: Jwt.Codec<Jwt.Identity>, env: Config.Env, now: int, c: Gin, acceptLanguage: string)
    ensures AuthMiddleware(codec, env, now, Language.LanguageMiddleware(c, acceptLanguage), "")
            == Abort(StatusUnauthorized,
                     if acceptLanguage == "id" || acceptLanguage == "ID" then "tidak memiliki akses" else "unauthorized")
  {
    Language.MiddlewareThenGetters(c, acceptLanguage);
    Messages.TableIsComplete(Messages.Unauthorized);
  }
}
