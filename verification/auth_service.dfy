/**
 * The monolith's auth service: HS256 tokens whose claims carry the numeric
 * id, the UUID, the e-mail and the username, valid for a day; validation
 * pinned to HMAC that rebuilds a partial user from the claims; and password
 * hashing through the hasher.
 */
module AuthService {
  import opened Wrappers
  import Jwt
  import Crypto
  import DomainError
  import AuthUser

  datatype ServiceIdentity = ServiceIdentity(userId: nat, uuid: string, email: string, username: string)

  datatype Service = Service(jwtSecret: string, codec: Jwt.Codec<ServiceIdentity>, hasher: Crypto.Hasher)

  /** The claims issued for `user` at `now`. */
  function ClaimsFor(user: AuthUser.User, now: int): (c: Jwt.Claims<ServiceIdentity>)
    ensures c.payload == ServiceIdentity(user.id, user.uuid, user.email, user.username)
    ensures c.issuedAt == now && c.notBefore == now && c.expiresAt == now + Jwt.Day
  {
    Jwt.NewClaims(ServiceIdentity(user.id, user.uuid, user.email, user.username), now, Jwt.Day)
  }

  /** `GenerateToken`: the claims for `user`, signed HS256 with the
      service's secret. */
  function GenerateToken(s: Service, user: AuthUser.User, now: int): (token: string)
    ensures Jwt.Faithful(s.codec) ==> token != ""
    ensures Jwt.Faithful(s.codec) ==> s.codec.decode(token) == Some(Jwt.SignHS256(s.jwtSecret, ClaimsFor(user, now)))
  {
    s.codec.encode(Jwt.SignHS256(s.jwtSecret, ClaimsFor(user, now)))
  }

  /** The user rebuilt from validated claims: id, e-mail and username; the
      UUID and every other field are left at their zero values. */
  function UserFromClaims(id: ServiceIdentity): (u: AuthUser.User)
    ensures u.id == id.userId && u.email == id.email && u.username == id.username
    ensures u.uuid == "" && u.password == "" && !u.isActive
  {
    AuthUser.User(id.userId, "", id.email, id.username, "", "", "", false, 0, 0)
  }

  /** `ValidateToken`: parse with HMAC pinned to the service's secret; any
      parser error is returned and no user with it. */
  function ValidateToken(s: Service, token: string, now: int): (r: Result<AuthUser.User, Jwt.TokenError>)
    ensures r.Success? <==> Jwt.Parse(s.codec, s.jwtSecret, token, now).Success?
    ensures r.Success? ==> r.value == UserFromClaims(Jwt.Parse(s.codec, s.jwtSecret, token, now).value.payload)
    ensures s.codec.decode(token).Some? && !Jwt.IsHmac(s.codec.decode(token).value.alg) ==> r.Failure?
  {
    match Jwt.Parse(s.codec, s.jwtSecret, token, now)
    case Failure(e) => Failure(e)
    case Success(claims) => Success(UserFromClaims(claims.payload))
  }

  /** A token the service issued validates during its day back to the
      user's id, e-mail and username; the UUID does not come back. */
  lemma GenerateValidateDropsUuid(s: Service, user: AuthUser.User, now: int, later: int)
    requires Jwt.Faithful(s.codec)
    requires now <= later < now + Jwt.Day
    ensures var r := ValidateToken(s, GenerateToken(s, user, now), later);
            && r.Success?
            && r.value.id == user.id && r.value.email == user.email && r.value.username == user.username
            && r.value.uuid == ""
  {
    Jwt.IssueParseRoundTrip(s.codec, s.jwtSecret, ClaimsFor(user, now), later);
  }

  /** `HashPassword`: the hash, or the empty string together with the
      hasher's error. */
  function HashPassword(s: Service, password: string, salt: nat, fault: Option<DomainError.GoError>): (r: (string, Option<DomainError.GoError>))
    ensures r.1 == fault
    ensures fault.Some? ==> r.0 == ""
    ensures Crypto.Sound(s.hasher) && fault.None? ==> r.0 != password && s.hasher.verify(r.0, password)
  {
    match Crypto.HashPassword(s.hasher, password, salt, fault)
    case Failure(e) => ("", Some(e))
    case Success(h) => (h, None)
  }

  function VerifyPassword(s: Service, hashed: string, password: string): (r: Option<DomainError.GoError>)
    ensures r.None? <==> s.hasher.verify(hashed, password)
  {
    Crypto.VerifyPassword(s.hasher, hashed, password)
  }
}
