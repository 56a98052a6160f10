/**
 * The monolith's user endpoints: the profile routes act only for the
 * principal the auth middleware stored under "sess", and read it before
 * anything else; the listing passes the query string to the usecase.
 * A body or query that fails binding is `Failure(text)`.
 */
module UserHandler {
  import opened Wrappers
  import opened Envelope
  import opened RequestContext
  import Jwt
  import AuthDto
  import Language
  import Messages
  import Validation
  import UserUsecase
  import AuthMiddleware
  import PkgJwt
  import LibJwt
  import Config
  import Bearer
  import SharedUser
  import Pagination
  import DomainError

  const StatusUnauthorized: int := 401
  const StatusBadRequest: int := 400

  /** The principal: the claims under "sess", if that value is a claims
      value at all. */
  function Principal(c: Gin): (p: Option<Jwt.Claims<Jwt.Identity>>)
    ensures p.Some? <==> AuthMiddleware.SessKey in c.keys && c.keys[AuthMiddleware.SessKey].ClaimsValue?
    ensures p.Some? ==> c.keys[AuthMiddleware.SessKey] == ClaimsValue(p.value)
  {
    if AuthMiddleware.SessKey in c.keys && c.keys[AuthMiddleware.SessKey].ClaimsValue?
    then Some(c.keys[AuthMiddleware.SessKey].claims) else None
  }

  function Unauthorized<D>(c: Gin): (r: Response<D>)
    ensures r.isError && r.status == StatusUnauthorized && r.data.None? && r.errors == map[]
  {
    NewResponse(StatusUnauthorized, None, Messages.GetErrorMessage(Messages.Unauthorized, Language.GetLangFromGin(c)), map[])
  }

  function Rejected<D>(c: Gin, errs: Errors): (r: Response<D>)
    ensures r.isError && r.status == StatusBadRequest && r.data.None? && r.errors == errs
  {
    NewResponse(StatusBadRequest, None, Messages.GetErrorMessage(Messages.ValidationFailed, Language.GetLangFromGin(c)), errs)
  }

  /** `GetProfile`: the usecase is called with the principal's user id. */
  function GetProfile<D>(c: Gin, usecase: string -> Reply<D>): (h: Handled<string, D>)
    ensures h.call.Some? <==> Principal(c).Some?
    ensures h.call.None? ==> h.response == Unauthorized(c)
    ensures h.call.Some? ==>
              && h.call.value == Principal(c).value.payload.userId
              && h.response == Relay(usecase(h.call.value), "Profile retrieved successfully")
  {
    match Principal(c)
    case None => Handled(Unauthorized(c), None)
    case Some(claims) =>
      Handled(Relay(usecase(claims.payload.userId), "Profile retrieved successfully"), Some(claims.payload.userId))
  }

  /** `UpdateProfile`: principal, then binding, then validation, then the
      usecase. */
  function UpdateProfile<D>(c: Gin, body: Result<AuthDto.UpdateProfileRequest, string>,
                            usecase: (string, AuthDto.UpdateProfileRequest) -> Reply<D>)
    : (h: Handled<(string, AuthDto.UpdateProfileRequest), D>)
    ensures h.call.Some? <==>
              Principal(c).Some? && body.Success? && (body.value.firstName != "" || body.value.lastName != "")
    ensures Principal(c).None? ==> h.response == Unauthorized(c)
    ensures Principal(c).Some? && body.Failure? ==>
              h.response == Rejected(c, map["body" := [Validation.Raw(body.error)]])
    ensures Principal(c).Some? && body.Success? && h.call.None? ==>
              h.response == Rejected(c, AuthDto.ValidateUpdateProfile(body.value, Language.GetLangFromGin(c)))
    ensures h.call.Some? ==>
              && h.call.value == (Principal(c).value.payload.userId, body.value)
              && h.response == Relay(usecase(h.call.value.0, h.call.value.1), "Profile updated successfully")
  {
    match Principal(c)
    case None => Handled(Unauthorized(c), None)
    case Some(claims) =>
      match body
      case Failure(text) => Handled(Rejected(c, map["body" := [Validation.Raw(text)]]), None)
      case Success(req) =>
        var errs := AuthDto.ValidateUpdateProfile(req, Language.GetLangFromGin(c));
        if |errs| > 0 then Handled(Rejected(c, errs), None)
        else
          var id := claims.payload.userId;
          Handled(Relay(usecase(id, req), "Profile updated successfully"), Some((id, req)))
  }

  /** `dto.UserListResponse`. */
  datatype UserList<R> = UserList(users: seq<R>, pagination: UserUsecase.PaginationResponse)

  /** The listing's answer, or the usecase's panic, which the handler does
      not recover from. */
  datatype ListAnswer<R> = Crashed | Answered(response: Response<UserList<R>>)

  /** The status the client receives once the router's `gin.Recovery()`
      middleware has turned a panic into a bare 500. */
  function ServedStatus<R>(a: ListAnswer<R>): (status: int)
  {
    match a
    case Crashed => UserUsecase.StatusInternalServerError
    case Answered(response) => response.status
  }

  function GetUsers<R>(c: Gin, query: Result<UserUsecase.Queries, string>,
                       usecase: UserUsecase.Queries -> UserUsecase.ListOutcome<R>): (a: ListAnswer<R>)
    ensures a.Crashed? <==> query.Success? && usecase(query.value).Panicked?
    ensures query.Failure? ==> a == Answered(Rejected(c, map["query" := [Validation.Raw(query.error)]]))
    ensures query.Success? && a.Answered? ==>
              var o := usecase(query.value);
              && a.response.status == o.status
              && (o.err.Some? ==> a.response.data.None? && a.response.message == DomainError.ErrorText(o.err.value))
              && (o.err.None? && o.data.Some? ==>
                    a.response.data == Some(UserList(o.data.value, o.pagination))
                    && a.response.message == "Users retrieved successfully")
  {
    match query
    case Failure(text) => Answered(Rejected(c, map["query" := [Validation.Raw(text)]]))
    case Success(q) =>
      match usecase(q)
      case Panicked => Crashed
      case Listed(data, pagination, status, err) =>
        match err
        case Some(e) => Answered(NewResponse(status, None, DomainError.ErrorText(e), map[]))
        case None =>
          var users := match data case Some(u) => u case None => [];
          Answered(NewResponse(status, Some(UserList(users, pagination)), "Users retrieved successfully", map[]))
  }

  /** Without a session, a profile update is refused as unauthorised even
      when its body would not bind: the principal is checked first. */
  lemma PrincipalCheckedBeforeBinding<D>(c: Gin, text: string,
                                         usecase: (string, AuthDto.UpdateProfileRequest) -> Reply<D>)
    requires AuthMiddleware.SessKey !in c.keys
    ensures UpdateProfile(c, Failure(text), usecase).response.status == StatusUnauthorized
  {
  }

  /** A session value of another type, such as a plain string, does not
      count as a principal. */
  lemma ForeignSessionRefused<D>(c: Gin, text: string, usecase: string -> Reply<D>)
    requires AuthMiddleware.SessKey in c.keys && c.keys[AuthMiddleware.SessKey] == Text(text)
    ensures GetProfile(c, usecase) == Handled(Unauthorized(c), None)
  {
  }

  /** End to end: behind the auth middleware, a request bearing a token
      generated for `user` reaches the profile usecase with that user's id. */
  lemma MiddlewareThenGetProfile<D>(codec: Jwt.Codec<Jwt.Identity>, env: Config.Env, user: LibJwt.UserPayload,
                                    now: int, later: int, c: Gin, usecase: string -> Reply<D>)
    requires Jwt.Faithful(codec)
    requires now <= later < now + Jwt.Day
    ensures var g := AuthMiddleware.AuthMiddleware(codec, env, later, c, Bearer.Prefix + PkgJwt.GenerateToken(codec, env, user, now));
            g.Next? && GetProfile(g.ctx, usecase).call == Some(user.id)
  {
    AuthMiddleware.GeneratedTokenAdmitted(codec, env, user, now, later, c);
  }

  /** With the listing as written, `?per_page=0` crashes the request once the
      repository has answered, and the client gets a 500. */
  lemma ZeroPerPageCrashesListing<R>(c: Gin, q: UserUsecase.Queries, ctx: Store,
                                     list: UserUsecase.FilterUser -> Result<UserUsecase.Listing, DomainError.GoError>,
                                     toResponse: SharedUser.User -> R)
    requires UserUsecase.Query(q, "per_page") == "0"
    requires list(UserUsecase.BuildFilter(q, Pagination.PaginationBuilder("0", UserUsecase.Query(q, "page")))).Success?
    ensures GetUsers(c, Success(q), (x: UserUsecase.Queries) => UserUsecase.GetUsers(ctx, x, list, toResponse)).Crashed?
    ensures ServedStatus(GetUsers(c, Success(q), (x: UserUsecase.Queries) => UserUsecase.GetUsers(ctx, x, list, toResponse)))
            == UserUsecase.StatusInternalServerError
  {
    UserUsecase.ZeroPerPageRequestPanics(ctx, q, list, toResponse);
  }
}
