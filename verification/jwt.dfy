/**
 * JSON Web Tokens (RFC 7519) signed with HMAC (section 3.2 of RFC 7518), as
 * the golang-jwt v5 library issues and checks them for this service.
 *
 * Cryptography is symbolic: a signature is the value `Mac(key, alg, claims)`
 * it authenticates, so two signatures agree exactly when key, algorithm and
 * claims agree. The compact serialisation is a `Codec` pair of functions that
 * only has to round-trip. Times are whole seconds since the epoch, the
 * precision of the NumericDate claims.
 */
module Jwt {
  import opened Wrappers

  /** The `alg` header values the library knows, and any other name. */
  datatype Alg =
    | HS256 | HS384 | HS512
    | RS256 | RS384 | RS512 | PS256 | PS384 | PS512 | ES256 | ES384 | ES512 | EdDSA
    | NoneAlg
    | Unregistered(name: string)

  /** The HMAC family the key functions pin validation to. */
  predicate IsHmac(a: Alg) { a.HS256? || a.HS384? || a.HS512? }

  /** The custom claims of the repository's two token packages. */
  datatype Identity = Identity(userId: string, email: string, username: string)

  /** A claims set: custom payload plus the registered `iat`, `nbf` and `exp`
      claims (sections 4.1.4 to 4.1.6 of RFC 7519). */
  datatype Claims<P> = Claims(payload: P, issuedAt: int, notBefore: int, expiresAt: int)

  datatype Mac<P> = Mac(key: string, alg: Alg, claims: Claims<P>)

  /** A decoded token: header algorithm, claims and signature. */
  datatype Token<P> = Token(alg: Alg, claims: Claims<P>, signature: Mac<P>)

  /** The compact serialisation: base64url header, payload and signature
      joined by dots, and its parser. */
  datatype Codec<!P> = Codec(encode: Token<P> -> string, decode: string -> Option<Token<P>>)

  /** Every token serialises to a non-empty string that parses back to it. */
  ghost predicate Faithful<P(!new)>(c: Codec<P>)
  {
    forall t :: c.decode(c.encode(t)) == Some(t) && c.encode(t) != ""
  }

  const Day: int := 24 * 60 * 60

  /** The signature HMAC computes over header and payload under `key`. */
  function Sign<P>(key: string, alg: Alg, claims: Claims<P>): Mac<P>
  {
    Mac(key, alg, claims)
  }

  /** Claims minted at `now` and valid for `ttl` seconds. */
  function NewClaims<P>(payload: P, now: int, ttl: int): Claims<P>
  {
    Claims(payload, now, now, now + ttl)
  }

  /** `jwt.NewWithClaims(jwt.SigningMethodHS256, claims)` signed with `key`. */
  function SignHS256<P>(key: string, claims: Claims<P>): (t: Token<P>)
    ensures t.alg == HS256 && t.claims == claims
  {
    Token(HS256, claims, Sign(key, HS256, claims))
  }

  datatype TokenError =
    | Malformed
    | Unverifiable(alg: Alg)
    | SignatureInvalid
    | InvalidClaims(expired: bool, notYetValid: bool)

  /** The time window in which the validator accepts a claims set: `exp` is
      strictly in the future and `nbf` is not (`iat` is not checked). */
  predicate InWindow<P>(c: Claims<P>, now: int)
  {
    c.notBefore <= now < c.expiresAt
  }

  /**
   * `jwt.ParseWithClaims` with a key function that rejects every non-HMAC
   * method and otherwise returns `key`: decode, then pin the algorithm, then
   * check the signature, then the time claims.
   */
  function Parse<P(==)>(c: Codec<P>, key: string, s: string, now: int): (r: Result<Claims<P>, TokenError>)
    ensures r.Success? <==>
              && c.decode(s).Some?
              && IsHmac(c.decode(s).value.alg)
              && c.decode(s).value.signature == Sign(key, c.decode(s).value.alg, c.decode(s).value.claims)
              && InWindow(c.decode(s).value.claims, now)
    ensures r.Success? ==> r.value == c.decode(s).value.claims
    ensures c.decode(s).Some? && !IsHmac(c.decode(s).value.alg) ==> r == Failure(Unverifiable(c.decode(s).value.alg))
  {
    match c.decode(s)
    case None => Failure(Malformed)
    case Some(t) =>
      if !IsHmac(t.alg) then Failure(Unverifiable(t.alg))
      else if t.signature != Sign(key, t.alg, t.claims) then Failure(SignatureInvalid)
      else
        var expired := !(now < t.claims.expiresAt);
        var early := now < t.claims.notBefore;
        if expired || early then Failure(InvalidClaims(expired, early))
        else Success(t.claims)
  }

  /** Round trip: a token issued under `key` parses under the same key, at any
      time inside its window, back to the claims it was issued with. */
  lemma IssueParseRoundTrip<P(!new)>(c: Codec<P>, key: string, claims: Claims<P>, now: int)
    requires Faithful(c)
    requires InWindow(claims, now)
    ensures Parse(c, key, c.encode(SignHS256(key, claims)), now) == Success(claims)
  {
    assert c.decode(c.encode(SignHS256(key, claims))) == Some(SignHS256(key, claims));
  }

  /** A token issued under one secret never parses under another. */
  lemma WrongKeyRejected<P(!new)>(c: Codec<P>, key: string, other: string, claims: Claims<P>, now: int)
    requires Faithful(c)
    requires key != other
    ensures Parse(c, other, c.encode(SignHS256(key, claims)), now) == Failure(SignatureInvalid)
  {
    assert c.decode(c.encode(SignHS256(key, claims))) == Some(SignHS256(key, claims));
  }

  /** Once `exp` is reached the genuine token is rejected as expired. */
  lemma ExpiredRejected<P(!new)>(c: Codec<P>, key: string, claims: Claims<P>, now: int)
    requires Faithful(c)
    requires now >= claims.expiresAt
    ensures Parse(c, key, c.encode(SignHS256(key, claims)), now).Failure?
    ensures Parse(c, key, c.encode(SignHS256(key, claims)), now).error.InvalidClaims?
    ensures Parse(c, key, c.encode(SignHS256(key, claims)), now).error.expired
  {
    assert c.decode(c.encode(SignHS256(key, claims))) == Some(SignHS256(key, claims));
  }

  /** Algorithm pinning: a token declaring any non-HMAC algorithm is rejected
      whatever its signature, even one computed with the right key. */
  lemma NonHmacRejected<P(!new)>(c: Codec<P>, key: string, t: Token<P>, now: int)
    requires Faithful(c)
    requires !IsHmac(t.alg)
    ensures Parse(c, key, c.encode(t), now) == Failure(Unverifiable(t.alg))
  {
    assert c.decode(c.encode(t)) == Some(t);
  }
}
