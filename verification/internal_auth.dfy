/**
 * The monolith's authentication usecase. It reports failures as
 * `CustomError` values (status code, message, wrapped error) and reaches the
 * hasher and the token issuer through the auth service. A fault parameter
 * stands for a service or repository call returning an error.
 */
module InternalAuth {
  import opened Wrappers
  import opened DomainError
  import Table
  import AuthUser
  import AuthService
  import AuthDto
  import Jwt
  import Crypto

  datatype Call =
    | GetByEmail(email: string)
    | GetByUsername(username: string)
    | HashPassword
    | Create
    | VerifyPassword
    | GenerateToken

  datatype Faults = Faults(
    emailLookup: Option<GoError>,
    usernameLookup: Option<GoError>,
    hash: Option<GoError>,
    create: Option<GoError>,
    token: Option<GoError>)

  /** The service, plus the inputs standing for the salt, the UUID
      generator and the clock. */
  datatype Deps = Deps(service: AuthService.Service, salt: nat, freshUuid: string, now: int)

  datatype RegisterOutcome = RegisterOutcome(
    user: Option<AuthUser.User>, err: Option<CustomError>, rows: AuthUser.Rows, calls: seq<Call>)

  datatype LoginResponse = LoginResponse(user: AuthUser.User, token: string)

  datatype LoginOutcome = LoginOutcome(response: Option<LoginResponse>, err: Option<CustomError>, calls: seq<Call>)

  const EmailTaken: CustomError := NewCustomError(400, "user already exists", Some(Sentinel(UserAlreadyExists)))
  const UsernameTaken: CustomError := NewCustomError(400, "username already taken", Some(Sentinel(UserAlreadyExists)))
  const BadCredentials: CustomError := NewCustomError(401, "invalid credentials", Some(Sentinel(InvalidCredentials)))

  /** `Register`: e-mail lookup, username lookup, hash, build, insert, strip. */
  function Register(rows: AuthUser.Rows, req: AuthDto.RegisterRequest, d: Deps, f: Faults): (o: RegisterOutcome)
    requires |d.freshUuid| == AuthUser.UuidLength
    ensures o.user.Some? <==> o.err.None?
    ensures o.err.None? <==>
              && f.hash.None? && f.create.None?
              && !Table.Taken(rows, AuthUser.UuidOf, d.freshUuid)
              && !Table.Taken(rows, AuthUser.EmailOf, req.email)
              && !Table.Taken(rows, AuthUser.UsernameOf, req.username)
    ensures o.err.Some? ==> o.rows == rows
    ensures o.user.Some? ==> o.user.value.password == ""
    ensures |o.calls| >= 1 && o.calls[0] == GetByEmail(req.email)
    ensures Create in o.calls ==> o.calls == [GetByEmail(req.email), GetByUsername(req.username), HashPassword, Create]
  {
    var c1 := [GetByEmail(req.email)];
    if Table.Lookup(rows, AuthUser.EmailOf, req.email, f.emailLookup).Success? then
      RegisterOutcome(None, Some(EmailTaken), rows, c1)
    else
      var c2 := c1 + [GetByUsername(req.username)];
      if Table.Lookup(rows, AuthUser.UsernameOf, req.username, f.usernameLookup).Success? then
        RegisterOutcome(None, Some(UsernameTaken), rows, c2)
      else
        var c3 := c2 + [HashPassword];
        var (hashed, err) := AuthService.HashPassword(d.service, req.password, d.salt, f.hash);
        if err.Some? then
          RegisterOutcome(None, Some(NewCustomError(500, "failed to hash password", err)), rows, c3)
        else
          var user := AuthUser.NewUser(req, d.freshUuid, d.now).(password := hashed);
          var c4 := c3 + [Create];
          match AuthUser.Create(rows, user, f.create)
          case Failure(e) =>
            RegisterOutcome(None, Some(NewCustomError(500, "failed to create user", Some(e))), rows, c4)
          case Success((rows', created)) =>
            RegisterOutcome(Some(created.(password := "")), None, rows', c4)
  }

  /** `Login`: lookup, verify, issue, strip. */
  function Login(rows: AuthUser.Rows, req: AuthDto.LoginRequest, d: Deps, emailLookup: Option<GoError>, tokenFault: Option<GoError>): (o: LoginOutcome)
    ensures o.response.Some? <==> o.err.None?
    ensures o.err.None? <==>
              && emailLookup.None?
              && Table.Taken(rows, AuthUser.EmailOf, req.email)
              && d.service.hasher.verify(Table.Lookup(rows, AuthUser.EmailOf, req.email, None).value.password, req.password)
              && tokenFault.None?
    ensures o.err.Some? ==> o.err.value == BadCredentials || (o.err.value.code == 500 && o.err.value.err == tokenFault)
    ensures o.response.Some? ==>
              && o.response.value.user.password == ""
              && o.calls == [GetByEmail(req.email), VerifyPassword, GenerateToken]
  {
    var c1 := [GetByEmail(req.email)];
    match Table.Lookup(rows, AuthUser.EmailOf, req.email, emailLookup)
    case Failure(_) => LoginOutcome(None, Some(BadCredentials), c1)
    case Success(user) =>
      var c2 := c1 + [VerifyPassword];
      if AuthService.VerifyPassword(d.service, user.password, req.password).Some? then
        LoginOutcome(None, Some(BadCredentials), c2)
      else
        var c3 := c2 + [GenerateToken];
        if tokenFault.Some? then
          LoginOutcome(None, Some(NewCustomError(500, "failed to generate token", tokenFault)), c3)
        else
          var token := AuthService.GenerateToken(d.service, user, d.now);
          LoginOutcome(Some(LoginResponse(user.(password := ""), token)), None, c3)
  }

  /** An e-mail collision is reported before the username is looked up. */
  lemma EmailCollisionFirst(rows: AuthUser.Rows, req: AuthDto.RegisterRequest, d: Deps, f: Faults)
    requires |d.freshUuid| == AuthUser.UuidLength
    requires f.emailLookup.None? && Table.Taken(rows, AuthUser.EmailOf, req.email)
    ensures var o := Register(rows, req, d, f);
            o.err == Some(CustomError(400, "user already exists", Some(Sentinel(UserAlreadyExists))))
            && o.calls == [GetByEmail(req.email)] && o.rows == rows
  {
  }

  /** A username collision carries its own message but wraps the
      user-exists sentinel, so its `Error()` text is "user already exists". */
  lemma UsernameCollisionReadsAsUserExists(rows: AuthUser.Rows, req: AuthDto.RegisterRequest, d: Deps, f: Faults)
    requires |d.freshUuid| == AuthUser.UuidLength
    requires f.emailLookup.Some? || !Table.Taken(rows, AuthUser.EmailOf, req.email)
    requires f.usernameLookup.None? && Table.Taken(rows, AuthUser.UsernameOf, req.username)
    ensures var o := Register(rows, req, d, f);
            && o.err.Some? && o.err.value.code == 400
            && o.err.value.message == "username already taken"
            && Error(o.err.value) == "user already exists"
            && o.rows == rows
  {
  }

  /** A hashing failure: code 500 wrapping the hasher's error, and the
      insert never happens. */
  lemma HashFailureSkipsCreate(rows: AuthUser.Rows, req: AuthDto.RegisterRequest, d: Deps, f: Faults)
    requires |d.freshUuid| == AuthUser.UuidLength
    requires f.emailLookup.Some? || !Table.Taken(rows, AuthUser.EmailOf, req.email)
    requires f.usernameLookup.Some? || !Table.Taken(rows, AuthUser.UsernameOf, req.username)
    requires f.hash.Some?
    ensures var o := Register(rows, req, d, f);
            && o.err == Some(CustomError(500, "failed to hash password", f.hash))
            && Create !in o.calls && o.rows == rows && o.user.None?
  {
  }

  /** An insert failure: code 500 wrapping the database error, no user. */
  lemma CreateFailureReported(rows: AuthUser.Rows, req: AuthDto.RegisterRequest, d: Deps, f: Faults)
    requires |d.freshUuid| == AuthUser.UuidLength
    requires f.emailLookup.Some? || !Table.Taken(rows, AuthUser.EmailOf, req.email)
    requires f.usernameLookup.Some? || !Table.Taken(rows, AuthUser.UsernameOf, req.username)
    requires f.hash.None? && f.create.Some?
    ensures var o := Register(rows, req, d, f);
            && o.err == Some(CustomError(500, "failed to create user", f.create))
            && o.user.None? && o.rows == rows
  {
  }

  /** On success the inserted row is the request's entity with the password
      replaced by its hash and a fresh id; the returned copy has no password. */
  lemma RegisterPersistsHash(rows: AuthUser.Rows, req: AuthDto.RegisterRequest, d: Deps, f: Faults)
    requires |d.freshUuid| == AuthUser.UuidLength
    requires Crypto.Sound(d.service.hasher)
    requires Register(rows, req, d, f).err.None?
    ensures var o := Register(rows, req, d, f);
            && |o.rows| == |rows| + 1 && o.rows[..|rows|] == rows
            && var stored := o.rows[|rows|];
               && stored.email == req.email && stored.username == req.username
               && stored.firstName == req.firstName && stored.lastName == req.lastName
               && stored.uuid == d.freshUuid && stored.id == AuthUser.NextId(rows) && stored.isActive
               && stored.password != req.password && d.service.hasher.verify(stored.password, req.password)
               && o.user == Some(stored.(password := ""))
  {
  }

  /** Registration keeps the table's unique indexes. */
  lemma RegisterPreservesUnique(rows: AuthUser.Rows, req: AuthDto.RegisterRequest, d: Deps, f: Faults)
    requires |d.freshUuid| == AuthUser.UuidLength
    requires AuthUser.Unique(rows)
    ensures AuthUser.Unique(Register(rows, req, d, f).rows)
  {
    var o := Register(rows, req, d, f);
    if o.err.None? {
      var hashed := AuthService.HashPassword(d.service, req.password, d.salt, f.hash).0;
      var user := AuthUser.NewUser(req, d.freshUuid, d.now).(password := hashed);
      AuthUser.CreatePreservesUnique(rows, user, f.create);
    }
  }

  /** Unknown e-mail and wrong password give the identical error. */
  lemma LoginFailuresIdentical(rows: AuthUser.Rows, other: AuthUser.Rows, req: AuthDto.LoginRequest, d: Deps,
                               tokenFault: Option<GoError>)
    requires !Table.Taken(rows, AuthUser.EmailOf, req.email)
    requires Table.Lookup(other, AuthUser.EmailOf, req.email, None).Success?
    requires !d.service.hasher.verify(Table.Lookup(other, AuthUser.EmailOf, req.email, None).value.password, req.password)
    ensures Login(rows, req, d, None, tokenFault).err == Login(other, req, d, None, tokenFault).err
            == Some(CustomError(401, "invalid credentials", Some(Sentinel(InvalidCredentials))))
  {
  }

  /** A token failure after a good password gives code 500 and no response. */
  lemma TokenFailureReported(rows: AuthUser.Rows, req: AuthDto.LoginRequest, d: Deps, e: GoError)
    requires Table.Lookup(rows, AuthUser.EmailOf, req.email, None).Success?
    requires d.service.hasher.verify(Table.Lookup(rows, AuthUser.EmailOf, req.email, None).value.password, req.password)
    ensures Login(rows, req, d, None, Some(e)).err == Some(CustomError(500, "failed to generate token", Some(e)))
  {
  }

  /** A freshly registered user logs in with the same credentials, and the
      token validates back to the new account's id, e-mail and username. */
  lemma RegisterThenLogin(rows: AuthUser.Rows, req: AuthDto.RegisterRequest, d: Deps, f: Faults)
    requires |d.freshUuid| == AuthUser.UuidLength
    requires Crypto.Sound(d.service.hasher) && Jwt.Faithful(d.service.codec)
    requires Register(rows, req, d, f).err.None?
    ensures var reg := Register(rows, req, d, f);
            var o := Login(reg.rows, AuthDto.LoginRequest(req.email, req.password), d, None, None);
            && o.response.Some?
            && var v := AuthService.ValidateToken(d.service, o.response.value.token, d.now);
               v.Success? && v.value.id == reg.rows[|rows|].id
               && v.value.email == req.email && v.value.username == req.username
  {
    var reg := Register(rows, req, d, f);
    RegisterPersistsHash(rows, req, d, f);
    var stored := reg.rows[|rows|];
    Table.LookupAppended(rows, AuthUser.EmailOf, stored, req.email);
    AuthService.GenerateValidateDropsUuid(d.service, stored, d.now, d.now);
  }
}
