/**
 * The gateway's authentication usecase: registration and login over the
 * user table, the password hasher and the token helpers.
 *
 * The usecase answers with a status code and a `GatewayErrors.CodedError`.
 * Every run also reports the collaborator calls it made, in order,
 * so that ordering and short-circuiting can be stated.
 */
module GatewayAuth {
  import opened Wrappers
  import opened Locale
  import opened SharedUser
  import Table
  import UserStore
  import Crypto
  import Jwt
  import LibJwt
  import Messages
  import Language
  import RequestContext
  import DomainError
  import AuthDto
  import opened GatewayErrors

  const StatusOK: int := 200
  const StatusCreated: int := 201
  const StatusBadRequest: int := 400
  const StatusUnauthorized: int := 401
  const StatusInternalServerError: int := 500

  datatype Call =
    | GetByEmail(email: string)
    | GetByUsername(username: string)
    | HashPassword
    | Create
    | VerifyPassword
    | GenerateToken

  /** Failures the collaborators report; `None` means the call succeeds. */
  datatype Faults = Faults(
    emailLookup: Option<DomainError.GoError>,
    usernameLookup: Option<DomainError.GoError>,
    hash: Option<DomainError.GoError>,
    create: Option<DomainError.GoError>)

  const NoFaults: Faults := Faults(None, None, None, None)

  /** What the usecase is wired with, plus the inputs that stand for the
      clock, the salt and the UUID generator. */
  datatype Deps = Deps(
    hasher: Crypto.Hasher,
    codec: Jwt.Codec<Jwt.Identity>,
    jwtSecret: string,
    salt: nat,
    freshId: string,
    hookId: string,
    now: int)

  predicate WellWired(d: Deps)
  {
    |d.freshId| == UuidLength && |d.hookId| == UuidLength
  }

  datatype RegisterOutcome = RegisterOutcome(
    user: Option<User>, status: int, err: Option<CodedError>, rows: UserStore.Rows, calls: seq<Call>)

  datatype LoginResponse = LoginResponse(user: User, token: string)

  datatype LoginOutcome = LoginOutcome(
    response: Option<LoginResponse>, status: int, err: Option<CodedError>, calls: seq<Call>)

  /** `Register`. The two lookups only ask whether a user came back; a
      lookup error counts as "no such user". */
  function Register(rows: UserStore.Rows, ctx: RequestContext.Store, req: AuthDto.RegisterRequest,
                    d: Deps, f: Faults): (o: RegisterOutcome)
    requires WellWired(d)
    ensures o.status == StatusCreated <==>
              && f.hash.None? && f.create.None?
              && !Table.Taken(rows, UserStore.EmailOf, req.email)
              && !Table.Taken(rows, UserStore.UsernameOf, req.username)
              && !Table.Taken(rows, UserStore.IdOf, d.freshId)
    ensures o.status != StatusCreated ==> o.rows == rows && o.user.None? && o.err.Some?
    ensures o.status == StatusCreated ==> o.user.Some? && o.user.value.password == "" && o.err.None?
    ensures o.err.Some? ==> o.err.value.lang == Language.GetLangFromContext(ctx)
    ensures |o.calls| >= 1 && o.calls[0] == GetByEmail(req.email)
    ensures Create in o.calls ==> o.calls == [GetByEmail(req.email), GetByUsername(req.username), HashPassword, Create]
  {
    var lang := Language.GetLangFromContext(ctx);
    var c1 := [GetByEmail(req.email)];
    if UserStore.GetByEmail(rows, req.email, f.emailLookup).Success? then
      RegisterOutcome(None, StatusBadRequest, Some(CodedError(Messages.UserAlreadyExists, lang)), rows, c1)
    else
      var c2 := c1 + [GetByUsername(req.username)];
      if UserStore.GetByUsername(rows, req.username, f.usernameLookup).Success? then
        RegisterOutcome(None, StatusBadRequest, Some(CodedError(Messages.UsernameAlreadyTaken, lang)), rows, c2)
      else
        var c3 := c2 + [HashPassword];
        match Crypto.HashPassword(d.hasher, req.password, d.salt, f.hash)
        case Failure(_) =>
          RegisterOutcome(None, StatusInternalServerError, Some(CodedError(Messages.FailedToHashPassword, lang)), rows, c3)
        case Success(hashed) =>
          var user := NewUser(d.freshId, req.email, req.username, hashed, req.firstName, req.lastName);
          var c4 := c3 + [Create];
          match UserStore.Create(rows, user, d.hookId, f.create)
          case Failure(_) =>
            RegisterOutcome(None, StatusInternalServerError, Some(CodedError(Messages.FailedToCreateUser, lang)), rows, c4)
          case Success(rows') =>
            RegisterOutcome(Some(Stripped(user)), StatusCreated, None, rows', c4)
  }

  /** `Login`. Both credential failures give the same answer. Token
      generation signs with a byte key and cannot fail, so its error branch
      is unreachable. */
  function Login(rows: UserStore.Rows, ctx: RequestContext.Store, req: AuthDto.LoginRequest,
                 d: Deps, emailLookup: Option<DomainError.GoError>): (o: LoginOutcome)
    ensures o.status == StatusOK <==> o.response.Some?
    ensures o.status == StatusOK <==>
              && emailLookup.None?
              && Table.Taken(rows, UserStore.EmailOf, req.email)
              && d.hasher.verify(UserStore.GetByEmail(rows, req.email, None).value.password, req.password)
    ensures o.status != StatusOK ==>
              && o.status == StatusUnauthorized
              && o.err == Some(CodedError(Messages.InvalidCredentials, Language.GetLangFromContext(ctx)))
    ensures o.response.Some? ==>
              && o.response.value.user.password == ""
              && o.calls == [GetByEmail(req.email), VerifyPassword, GenerateToken]
  {
    var lang := Language.GetLangFromContext(ctx);
    var c1 := [GetByEmail(req.email)];
    match UserStore.GetByEmail(rows, req.email, emailLookup)
    case Failure(_) =>
      LoginOutcome(None, StatusUnauthorized, Some(CodedError(Messages.InvalidCredentials, lang)), c1)
    case Success(user) =>
      var c2 := c1 + [VerifyPassword];
      if Crypto.VerifyPassword(d.hasher, user.password, req.password).Some? then
        LoginOutcome(None, StatusUnauthorized, Some(CodedError(Messages.InvalidCredentials, lang)), c2)
      else
        var token := LibJwt.GenerateToken(d.codec, d.jwtSecret, LibJwt.UserPayload(user.id, user.email, user.username), d.now);
        LoginOutcome(Some(LoginResponse(Stripped(user), token)), StatusOK, None, c2 + [GenerateToken])
  }

  // ---- registration properties ------------------------------------------

  /** An e-mail already on file stops registration at the first lookup:
      400/UserAlreadyExists, no other call, the table unchanged. */
  lemma EmailCheckedFirst(rows: UserStore.Rows, ctx: RequestContext.Store, req: AuthDto.RegisterRequest, d: Deps, f: Faults)
    requires WellWired(d)
    requires f.emailLookup.None? && Table.Taken(rows, UserStore.EmailOf, req.email)
    ensures var o := Register(rows, ctx, req, d, f);
            && o.status == StatusBadRequest
            && o.err == Some(CodedError(Messages.UserAlreadyExists, Language.GetLangFromContext(ctx)))
            && o.calls == [GetByEmail(req.email)]
            && o.rows == rows
  {
  }

  /** A free e-mail with a taken username: 400/UsernameAlreadyTaken after
      exactly the two lookups, the table unchanged. */
  lemma UsernameTakenStopsRegistration(rows: UserStore.Rows, ctx: RequestContext.Store, req: AuthDto.RegisterRequest, d: Deps, f: Faults)
    requires WellWired(d)
    requires f.emailLookup.Some? || !Table.Taken(rows, UserStore.EmailOf, req.email)
    requires f.usernameLookup.None? && Table.Taken(rows, UserStore.UsernameOf, req.username)
    ensures var o := Register(rows, ctx, req, d, f);
            && o.status == StatusBadRequest
            && o.err == Some(CodedError(Messages.UsernameAlreadyTaken, Language.GetLangFromContext(ctx)))
            && o.calls == [GetByEmail(req.email), GetByUsername(req.username)]
            && o.rows == rows
  {
  }

  /** Lookup errors are discarded: a failing lookup behaves exactly as a
      lookup that found nobody. */
  lemma LookupErrorsIgnored(rows: UserStore.Rows, ctx: RequestContext.Store, req: AuthDto.RegisterRequest, d: Deps,
                            f: Faults, e1: DomainError.GoError, e2: DomainError.GoError)
    requires WellWired(d)
    requires !Table.Taken(rows, UserStore.EmailOf, req.email)
    requires !Table.Taken(rows, UserStore.UsernameOf, req.username)
    ensures Register(rows, ctx, req, d, f.(emailLookup := Some(e1), usernameLookup := Some(e2)))
            == Register(rows, ctx, req, d, f.(emailLookup := None, usernameLookup := None))
  {
  }

  /** A hashing failure: 500/FailedToHashPassword, no user, no insert. */
  lemma HashFailureStopsBeforeCreate(rows: UserStore.Rows, ctx: RequestContext.Store, req: AuthDto.RegisterRequest, d: Deps, f: Faults)
    requires WellWired(d)
    requires f.emailLookup.Some? || !Table.Taken(rows, UserStore.EmailOf, req.email)
    requires f.usernameLookup.Some? || !Table.Taken(rows, UserStore.UsernameOf, req.username)
    requires f.hash.Some?
    ensures var o := Register(rows, ctx, req, d, f);
            && o.status == StatusInternalServerError
            && o.err == Some(CodedError(Messages.FailedToHashPassword, Language.GetLangFromContext(ctx)))
            && o.user.None? && o.rows == rows
            && Create !in o.calls
  {
  }

  /** An insert failure: 500/FailedToCreateUser, no user, table unchanged. */
  lemma CreateFailureLeavesTable(rows: UserStore.Rows, ctx: RequestContext.Store, req: AuthDto.RegisterRequest, d: Deps, f: Faults)
    requires WellWired(d)
    requires f.emailLookup.Some? || !Table.Taken(rows, UserStore.EmailOf, req.email)
    requires f.usernameLookup.Some? || !Table.Taken(rows, UserStore.UsernameOf, req.username)
    requires f.hash.None? && f.create.Some?
    ensures var o := Register(rows, ctx, req, d, f);
            && o.status == StatusInternalServerError
            && o.err == Some(CodedError(Messages.FailedToCreateUser, Language.GetLangFromContext(ctx)))
            && o.user.None? && o.rows == rows
  {
  }

  /** Success: 201, and exactly one row added, holding the request's fields
      and a hash of the password that verifies against it, never the
      plaintext itself. */
  lemma RegisterStoresHash(rows: UserStore.Rows, ctx: RequestContext.Store, req: AuthDto.RegisterRequest, d: Deps, f: Faults)
    requires WellWired(d) && Crypto.Sound(d.hasher)
    requires Register(rows, ctx, req, d, f).status == StatusCreated
    ensures var o := Register(rows, ctx, req, d, f);
            && |o.rows| == |rows| + 1 && o.rows[..|rows|] == rows
            && var stored := o.rows[|rows|];
               && stored.id == d.freshId && stored.isActive
               && stored.email == req.email && stored.username == req.username
               && stored.firstName == req.firstName && stored.lastName == req.lastName
               && stored.password != req.password
               && d.hasher.verify(stored.password, req.password)
               && o.user == Some(Stripped(stored))
  {
    var hashed := d.hasher.hash(req.password, d.salt);
    NewUserSurvivesHook(d.freshId, d.hookId, req.email, req.username, hashed, req.firstName, req.lastName);
  }

  /** Registration keeps the table's unique indexes. */
  lemma RegisterPreservesUnique(rows: UserStore.Rows, ctx: RequestContext.Store, req: AuthDto.RegisterRequest, d: Deps, f: Faults)
    requires WellWired(d)
    requires UserStore.Unique(rows)
    ensures UserStore.Unique(Register(rows, ctx, req, d, f).rows)
  {
    var o := Register(rows, ctx, req, d, f);
    if o.status == StatusCreated {
      var hashed := d.hasher.hash(req.password, d.salt);
      var user := NewUser(d.freshId, req.email, req.username, hashed, req.firstName, req.lastName);
      UserStore.CreatePreservesUnique(rows, user, d.hookId, f.create);
    }
  }

  // ---- login properties -------------------------------------------------

  /** An unknown e-mail and a wrong password cannot be told apart: same
      status, same error, no response. */
  lemma LoginFailuresIndistinguishable(rows: UserStore.Rows, other: UserStore.Rows, ctx: RequestContext.Store,
                                       req: AuthDto.LoginRequest, d: Deps)
    requires !Table.Taken(rows, UserStore.EmailOf, req.email)
    requires Table.Taken(other, UserStore.EmailOf, req.email)
    requires UserStore.GetByEmail(other, req.email, None).Success?
    requires !d.hasher.verify(UserStore.GetByEmail(other, req.email, None).value.password, req.password)
    ensures var unknown := Login(rows, ctx, req, d, None);
            var wrong := Login(other, ctx, req, d, None);
            unknown.status == wrong.status == StatusUnauthorized
            && unknown.err == wrong.err && unknown.response == wrong.response == None
  {
  }

  /** Successful login: 200, the stored user with the password cleared, and
      a token that validates under the configured secret for a day and names
      that user. */
  lemma LoginIssuesTokenForUser(rows: UserStore.Rows, ctx: RequestContext.Store, req: AuthDto.LoginRequest,
                                d: Deps, later: int)
    requires Jwt.Faithful(d.codec)
    requires Login(rows, ctx, req, d, None).status == StatusOK
    requires d.now <= later < d.now + Jwt.Day
    ensures var o := Login(rows, ctx, req, d, None);
            var u := UserStore.GetByEmail(rows, req.email, None).value;
            && UserStore.GetByEmail(rows, req.email, None).Success?
            && d.hasher.verify(u.password, req.password)
            && o.response.value.user == Stripped(u)
            && LibJwt.ValidateToken(d.codec, d.jwtSecret, o.response.value.token, later)
               == Success(LibJwt.ClaimsFor(LibJwt.UserPayload(u.id, u.email, u.username), d.now, Jwt.Day))
  {
    var u := UserStore.GetByEmail(rows, req.email, None).value;
    LibJwt.GenerateValidateRoundTrip(d.codec, d.jwtSecret, LibJwt.UserPayload(u.id, u.email, u.username), Jwt.Day, d.now, later);
  }

  /** End to end: a user who has just registered can log in with the same
      e-mail and password, and the token names the new account. */
  lemma RegisterThenLogin(rows: UserStore.Rows, ctx: RequestContext.Store, req: AuthDto.RegisterRequest, d: Deps, f: Faults)
    requires WellWired(d) && Crypto.Sound(d.hasher) && Jwt.Faithful(d.codec)
    requires Register(rows, ctx, req, d, f).status == StatusCreated
    ensures var o := Login(Register(rows, ctx, req, d, f).rows, ctx, AuthDto.LoginRequest(req.email, req.password), d, None);
            && o.status == StatusOK
            && Jwt.Parse(d.codec, d.jwtSecret, o.response.value.token, d.now).Success?
            && Jwt.Parse(d.codec, d.jwtSecret, o.response.value.token, d.now).value.payload
               == Jwt.Identity(d.freshId, req.email, req.username)
  {
    var o := Register(rows, ctx, req, d, f);
    RegisterStoresHash(rows, ctx, req, d, f);
    var stored := o.rows[|rows|];
    assert !Table.Taken(rows, UserStore.EmailOf, req.email);
    Table.LookupAppended(rows, UserStore.EmailOf, stored, req.email);
    LibJwt.GenerateValidateRoundTrip(d.codec, d.jwtSecret, LibJwt.UserPayload(stored.id, stored.email, stored.username), Jwt.Day, d.now, d.now);
  }
}
