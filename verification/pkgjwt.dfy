/**
 * The internal token helpers: the same claims and lifetimes as `LibJwt`, but
 * generation signs with the secret read from the process environment
 * (`JWT_SECRET`, defaulting to the configuration's placeholder), while
 * validation takes the secret from its caller.
 */
module PkgJwt {
  import opened Wrappers
  import opened Jwt
  import LibJwt
  import Config

  function GenerateTokenWithExpiry(codec: Codec<Identity>, env: Config.Env, user: LibJwt.UserPayload, expiry: int, now: int): (s: string)
    ensures Faithful(codec) ==> s != ""
    ensures Faithful(codec) ==>
              codec.decode(s) == Some(SignHS256(Config.JwtSecret(env), LibJwt.ClaimsFor(user, now, expiry)))
  {
    LibJwt.GenerateTokenWithExpiry(codec, Config.JwtSecret(env), user, expiry, now)
  }

  function GenerateToken(codec: Codec<Identity>, env: Config.Env, user: LibJwt.UserPayload, now: int): (s: string)
    ensures Faithful(codec) ==> codec.decode(s).Some? && codec.decode(s).value.claims.expiresAt == now + Day
  {
    GenerateTokenWithExpiry(codec, env, user, Day, now)
  }

  function ValidateToken(codec: Codec<Identity>, secret: string, token: string, now: int): (r: Result<Claims<Identity>, TokenError>)
    ensures codec.decode(token).None? ==> r == Failure(Malformed)
    ensures r.Success? ==> codec.decode(token).Some? && InWindow(r.value, now)
    ensures r.Success? <==>
              && codec.decode(token).Some?
              && IsHmac(codec.decode(token).value.alg)
              && codec.decode(token).value.signature == Sign(secret, codec.decode(token).value.alg, codec.decode(token).value.claims)
              && InWindow(codec.decode(token).value.claims, now)
    ensures r.Success? ==> r.value == codec.decode(token).value.claims
    ensures codec.decode(token).Some? && !IsHmac(codec.decode(token).value.alg) ==>
              r == Failure(Unverifiable(codec.decode(token).value.alg))
  {
    LibJwt.ValidateToken(codec, secret, token, now)
  }

  /** With `JWT_SECRET` set to `secret`, a freshly generated default token
      validates under `secret` and carries the user's fields. */
  lemma ValidateGeneratedWithConfiguredSecret(codec: Codec<Identity>, env: Config.Env, secret: string, user: LibJwt.UserPayload, now: int)
    requires Faithful(codec)
    requires "JWT_SECRET" in env && env["JWT_SECRET"] == secret && secret != ""
    ensures ValidateToken(codec, secret, GenerateToken(codec, env, user, now), now).Success?
    ensures ValidateToken(codec, secret, GenerateToken(codec, env, user, now), now).value.payload
            == Identity(user.id, user.email, user.username)
  {
    LibJwt.GenerateValidateRoundTrip(codec, secret, user, Day, now, now);
  }

  /** Validating with a secret other than the configured one fails. */
  lemma WrongSecretRejected(codec: Codec<Identity>, env: Config.Env, other: string, user: LibJwt.UserPayload, now: int, later: int)
    requires Faithful(codec)
    requires other != Config.JwtSecret(env)
    ensures ValidateToken(codec, other, GenerateToken(codec, env, user, now), later) == Failure(SignatureInvalid)
  {
    LibJwt.WrongSecretRejected(codec, Config.JwtSecret(env), other, user, Day, now, later);
  }

  /** A token generated an hour in the past is rejected as expired. */
  lemma ExpiredTokenRejected(codec: Codec<Identity>, env: Config.Env, user: LibJwt.UserPayload, now: int)
    requires Faithful(codec)
    ensures ValidateToken(codec, Config.JwtSecret(env), GenerateTokenWithExpiry(codec, env, user, -3600, now), now).Failure?
    ensures ValidateToken(codec, Config.JwtSecret(env), GenerateTokenWithExpiry(codec, env, user, -3600, now), now).error.expired
  {
    LibJwt.NonPositiveExpiryRejected(codec, Config.JwtSecret(env), user, -3600, now);
  }

  /** A string the codec cannot decode, such as `invalid.token.here`, is
      rejected as malformed under every secret. */
  lemma UndecodableRejected(codec: Codec<Identity>, secret: string, token: string, now: int)
    requires codec.decode(token).None?
    ensures ValidateToken(codec, secret, token, now) == Failure(Malformed)
  {
  }
}
