/**
 * The gateway's authentication middleware: a request passes only with a
 * `Bearer` header whose token validates under the gateway's secret; the
 * token's user id, email and username are then put in the gin context as
 * plain strings. Every rejection is the same 401 with the localised
 * "unauthorized" error.
 */
module GatewayAuthMiddleware {
  import opened Wrappers
  import opened Strings
  import opened RequestContext
  import Jwt
  import LibJwt
  import Bearer
  import Language
  import Messages
  import opened GatewayErrors

  const UserIDKey: string := "user_id"
  const UserEmailKey: string := "user_email"
  const UserUsernameKey: string := "user_username"
  const StatusUnauthorized: int := 401

  /** The context after a successful authentication of `id`. */
  function WithIdentity(c: Gin, id: Jwt.Identity): (d: Gin)
    ensures d.request == c.request
    ensures d.keys.Keys == c.keys.Keys + {UserIDKey, UserEmailKey, UserUsernameKey}
    ensures d.keys[UserIDKey] == Text(id.userId)
    ensures d.keys[UserEmailKey] == Text(id.email)
    ensures d.keys[UserUsernameKey] == Text(id.username)
    ensures forall k :: k in c.keys && k !in {UserIDKey, UserEmailKey, UserUsernameKey} ==> d.keys[k] == c.keys[k]
  {
    Gin(c.keys[UserIDKey := Text(id.userId)][UserEmailKey := Text(id.email)][UserUsernameKey := Text(id.username)],
        c.request)
  }

  /** `AuthMiddleware(secret)` applied to a request with context `c` and
      `Authorization` header `header` (empty when absent) at time `now`. */
  function AuthMiddleware(codec: Jwt.Codec<Jwt.Identity>, secret: string, now: int, c: Gin, header: string)
    : (g: Gate<CodedError>)
    ensures g.Abort? ==> g == Abort(StatusUnauthorized, CodedError(Messages.Unauthorized, Language.GetLangFromGin(c)))
    ensures g.Next? <==>
              && Bearer.ExtractToken(header).Some?
              && LibJwt.ValidateToken(codec, secret, Bearer.ExtractToken(header).value, now).Success?
    ensures g.Next? ==>
              && HasPrefix(header, Bearer.Prefix) && |header| > |Bearer.Prefix|
              && Jwt.InWindow(LibJwt.ValidateToken(codec, secret, Bearer.ExtractToken(header).value, now).value, now)
              && g.ctx == WithIdentity(c, LibJwt.ValidateToken(codec, secret, Bearer.ExtractToken(header).value, now).value.payload)
  {
    var unauthorized := Abort(StatusUnauthorized, CodedError(Messages.Unauthorized, Language.GetLangFromGin(c)));
    if header == "" then unauthorized
    else if !HasPrefix(header, Bearer.Prefix) then unauthorized
    else
      var token := TrimPrefix(header, Bearer.Prefix);
      if token == "" then unauthorized
      else match LibJwt.ValidateToken(codec, secret, token, now)
        case Failure(_) => unauthorized
        case Success(claims) => Next(WithIdentity(c, claims.payload))
  }

  /** End to end: a token the gateway generated for `user` admits the request
      for a day and puts exactly that user's fields in the context. */
  lemma GeneratedTokenAdmitted(codec: Jwt.Codec<Jwt.Identity>, secret: string, user: LibJwt.UserPayload,
                               now: int, later: int, c: Gin)
    requires Jwt.Faithful(codec)
    requires now <= later < now + Jwt.Day
    ensures AuthMiddleware(codec, secret, later, c, Bearer.Prefix + LibJwt.GenerateToken(codec, secret, user, now))
            == Next(WithIdentity(c, Jwt.Identity(user.id, user.email, user.username)))
  {
    var token := LibJwt.GenerateToken(codec, secret, user, now);
    Bearer.ExtractTokenExactly(Bearer.Prefix + token, token);
    LibJwt.GenerateValidateRoundTrip(codec, secret, user, Jwt.Day, now, later);
  }

  /** The same token is refused under another secret and after it expires. */
  lemma GeneratedTokenRefused(codec: Jwt.Codec<Jwt.Identity>, secret: string, other: string, user: LibJwt.UserPayload,
                              now: int, later: int, c: Gin)
    requires Jwt.Faithful(codec)
    ensures other != secret ==>
              AuthMiddleware(codec, other, later, c, Bearer.Prefix + LibJwt.GenerateToken(codec, secret, user, now)).Abort?
    ensures later >= now + Jwt.Day ==>
              AuthMiddleware(codec, secret, later, c, Bearer.Prefix + LibJwt.GenerateToken(codec, secret, user, now)).Abort?
  {
    var token := LibJwt.GenerateToken(codec, secret, user, now);
    Bearer.ExtractTokenExactly(Bearer.Prefix + token, token);
    if other != secret {
      LibJwt.WrongSecretRejected(codec, secret, other, user, Jwt.Day, now, later);
    }
    LibJwt.DefaultLifetime(codec, secret, user, now, later);
  }

  /** A lower-case scheme is refused even with a valid token. */
  lemma LowerCaseSchemeRefused(codec: Jwt.Codec<Jwt.Identity>, secret: string, now: int, c: Gin, token: string)
    ensures AuthMiddleware(codec, secret, now, c, "bearer " + token)
            == Abort(StatusUnauthorized, CodedError(Messages.Unauthorized, Language.GetLangFromGin(c)))
  {
    Bearer.SchemeIsCaseSensitive(token);
  }
}
