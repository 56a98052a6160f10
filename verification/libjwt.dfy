/**
 * The gateway's token helpers: HS256 tokens carrying a user's id, email and
 * username, valid for a day unless the caller picks another lifetime.
 */
module LibJwt {
  import opened Wrappers
  import opened Jwt

  /** The user data a token is generated for. */
  datatype UserPayload = UserPayload(id: string, email: string, username: string)

  function PayloadIdentity(user: UserPayload): Identity
  {
    Identity(user.id, user.email, user.username)
  }

  /** The claims a token minted at `now` with lifetime `expiry` carries. */
  function ClaimsFor(user: UserPayload, now: int, expiry: int): (c: Claims<Identity>)
    ensures c.payload.userId == user.id && c.payload.email == user.email && c.payload.username == user.username
    ensures c.issuedAt == now && c.notBefore == now && c.expiresAt == now + expiry
  {
    NewClaims(PayloadIdentity(user), now, expiry)
  }

  /** Signs the claims for `user` with `secret`. HMAC signing with a byte key
      cannot fail, so there is no error result. */
  function GenerateTokenWithExpiry(codec: Codec<Identity>, secret: string, user: UserPayload, expiry: int, now: int): (s: string)
    ensures Faithful(codec) ==> s != ""
    ensures Faithful(codec) ==>
              codec.decode(s) == Some(SignHS256(secret, ClaimsFor(user, now, expiry)))
  {
    codec.encode(SignHS256(secret, ClaimsFor(user, now, expiry)))
  }

  /** A token with the default lifetime of 24 hours. */
  function GenerateToken(codec: Codec<Identity>, secret: string, user: UserPayload, now: int): (s: string)
    ensures Faithful(codec) ==> codec.decode(s).Some? && codec.decode(s).value.claims.expiresAt == now + Day
  {
    GenerateTokenWithExpiry(codec, secret, user, Day, now)
  }

  /** Parses `token` under `secret` with HMAC pinned; the error of the parser
      is returned unchanged. */
  function ValidateToken(codec: Codec<Identity>, secret: string, token: string, now: int): (r: Result<Claims<Identity>, TokenError>)
    ensures codec.decode(token).None? ==> r == Failure(Malformed)
    ensures r.Success? ==> codec.decode(token).Some? && InWindow(r.value, now)
    ensures r.Success? <==>
              && codec.decode(token).Some?
              && IsHmac(codec.decode(token).value.alg)
              && codec.decode(token).value.signature == Sign(secret, codec.decode(token).value.alg, codec.decode(token).value.claims)
              && InWindow(codec.decode(token).value.claims, now)
    ensures r.Success? ==> r.value == codec.decode(token).value.claims
    ensures codec.decode(token).Some? && !IsHmac(codec.decode(token).value.alg) ==>
              r == Failure(Unverifiable(codec.decode(token).value.alg))
  {
    Parse(codec, secret, token, now)
  }

  /** A token generated under `secret` validates under it until it expires,
      and yields the user's id, email and username. */
  lemma GenerateValidateRoundTrip(codec: Codec<Identity>, secret: string, user: UserPayload, expiry: int, now: int, later: int)
    requires Faithful(codec)
    requires now <= later < now + expiry
    ensures ValidateToken(codec, secret, GenerateTokenWithExpiry(codec, secret, user, expiry, now), later).Success?
    ensures ValidateToken(codec, secret, GenerateTokenWithExpiry(codec, secret, user, expiry, now), later).value.payload
            == Identity(user.id, user.email, user.username)
  {
    IssueParseRoundTrip(codec, secret, ClaimsFor(user, now, expiry), later);
  }

  /** The default token stays valid for exactly one day. */
  lemma DefaultLifetime(codec: Codec<Identity>, secret: string, user: UserPayload, now: int, later: int)
    requires Faithful(codec)
    ensures ValidateToken(codec, secret, GenerateToken(codec, secret, user, now), later).Success?
            <==> now <= later < now + Day
  {
    var t := SignHS256(secret, ClaimsFor(user, now, Day));
    assert codec.decode(codec.encode(t)) == Some(t);
  }

  /** A token generated under one secret fails validation under any other. */
  lemma WrongSecretRejected(codec: Codec<Identity>, secret: string, other: string, user: UserPayload, expiry: int, now: int, later: int)
    requires Faithful(codec)
    requires secret != other
    ensures ValidateToken(codec, other, GenerateTokenWithExpiry(codec, secret, user, expiry, now), later) == Failure(SignatureInvalid)
  {
    WrongKeyRejected(codec, secret, other, ClaimsFor(user, now, expiry), later);
  }

  /** A token generated with a non-positive lifetime is already expired. */
  lemma NonPositiveExpiryRejected(codec: Codec<Identity>, secret: string, user: UserPayload, expiry: int, now: int)
    requires Faithful(codec)
    requires expiry <= 0
    ensures ValidateToken(codec, secret, GenerateTokenWithExpiry(codec, secret, user, expiry, now), now).Failure?
    ensures ValidateToken(codec, secret, GenerateTokenWithExpiry(codec, secret, user, expiry, now), now).error.InvalidClaims?
    ensures ValidateToken(codec, secret, GenerateTokenWithExpiry(codec, secret, user, expiry, now), now).error.expired
  {
    ExpiredRejected(codec, secret, ClaimsFor(user, now, expiry), now);
  }
}
