/**
 * The monolith's user usecase: reading and updating the caller's profile,
 * and listing users with filters and pagination taken from the query
 * string. `dto.ToUserResponse` is not part of this model, so the conversion
 * of a user to its response is the parameter `toResponse`. The language of
 * the errors is the one the request context carries.
 */
module UserUsecase {
  import opened Wrappers
  import opened DomainError
  import opened SharedUser
  import opened Strconv
  import UserStore
  import Table
  import Pagination
  import Strings
  import Messages
  import Language
  import RequestContext
  import AuthDto
  import Profile
  import opened Envelope

  const StatusOK: int := 200
  const StatusNotFound: int := 404
  const StatusInternalServerError: int := 500

  function Failed<R>(status: int, code: Messages.ErrCode, ctx: RequestContext.Store): Reply<R>
  {
    Reply(None, status, Some(Messages.GetError(code, Language.GetLangFromContext(ctx))))
  }

  /** `GetProfile`: any lookup failure, a database error included, reads as
      404 "user not found". */
  function GetProfile<R>(rows: UserStore.Rows, ctx: RequestContext.Store, userID: string,
                         fault: Option<GoError>, toResponse: User -> R): (r: Reply<R>)
    ensures r.status == StatusOK <==> fault.None? && Table.Taken(rows, UserStore.IdOf, userID)
    ensures r.status == StatusOK ==>
              && r.err.None? && r.data.Some?
              && exists u :: u in rows && u.id == userID && r.data.value == toResponse(u)
    ensures r.status != StatusOK ==> r == Failed(StatusNotFound, Messages.UserNotFound, ctx)
  {
    match UserStore.GetByID(rows, userID, fault)
    case Failure(_) => Failed(StatusNotFound, Messages.UserNotFound, ctx)
    case Success(u) => Reply(Some(toResponse(u)), StatusOK, None)
  }

  datatype UpdateOutcome<R> = UpdateOutcome(reply: Reply<R>, rows: UserStore.Rows)

  /** `UpdateProfile`: load the caller, apply the request's non-empty names,
      and save under the filter `id = userID`. */
  function UpdateProfile<R>(rows: UserStore.Rows, ctx: RequestContext.Store, userID: string,
                            req: AuthDto.UpdateProfileRequest, lookupFault: Option<GoError>,
                            updateFault: Option<GoError>, toResponse: User -> R): (o: UpdateOutcome<R>)
    ensures o.reply.status == StatusOK <==>
              lookupFault.None? && Table.Taken(rows, UserStore.IdOf, userID) && updateFault.None?
    ensures o.reply.status != StatusOK ==> o.rows == rows
    ensures lookupFault.Some? || !Table.Taken(rows, UserStore.IdOf, userID) ==>
              o.reply == Failed(StatusNotFound, Messages.UserNotFound, ctx)
    ensures lookupFault.None? && Table.Taken(rows, UserStore.IdOf, userID) && updateFault.Some? ==>
              o.reply == Failed(StatusInternalServerError, Messages.FailedToUpdateUser, ctx)
    ensures o.reply.status == StatusOK ==>
              var v := Profile.ApplyUpdate(UserStore.GetByID(rows, userID, None).value, req);
              && v.id == userID
              && o.reply == Reply(Some(toResponse(v)), StatusOK, None)
              && o.rows == UserStore.Update(rows, v, None).value
  {
    match UserStore.GetByID(rows, userID, lookupFault)
    case Failure(_) => UpdateOutcome(Failed(StatusNotFound, Messages.UserNotFound, ctx), rows)
    case Success(u) =>
      var v := Profile.ApplyUpdate(u, req);
      match UserStore.Update(rows, v, updateFault)
      case Failure(_) => UpdateOutcome(Failed(StatusInternalServerError, Messages.FailedToUpdateUser, ctx), rows)
      case Success(updated) => UpdateOutcome(Reply(Some(toResponse(v)), StatusOK, None), updated)
  }

  /** After a successful update the profile reads back exactly what the
      update answered. */
  lemma UpdateThenGetProfile<R>(rows: UserStore.Rows, ctx: RequestContext.Store, userID: string,
                                req: AuthDto.UpdateProfileRequest, toResponse: User -> R)
    requires UpdateProfile(rows, ctx, userID, req, None, None, toResponse).reply.status == StatusOK
    ensures var o := UpdateProfile(rows, ctx, userID, req, None, None, toResponse);
            GetProfile(o.rows, ctx, userID, None, toResponse) == o.reply
  {
    var v := Profile.ApplyUpdate(UserStore.GetByID(rows, userID, None).value, req);
    UserStore.UpdateThenGetByID(rows, v);
  }

  /** A profile update keeps the table's unique indexes. */
  lemma UpdateProfilePreservesUnique<R>(rows: UserStore.Rows, ctx: RequestContext.Store, userID: string,
                                        req: AuthDto.UpdateProfileRequest, toResponse: User -> R)
    requires UserStore.Unique(rows)
    ensures UserStore.Unique(UpdateProfile(rows, ctx, userID, req, None, None, toResponse).rows)
  {
    var found := UserStore.GetByID(rows, userID, None);
    if found.Success? {
      UserStore.UpdatePreservesUnique(rows, Profile.ApplyUpdate(found.value, req));
    }
  }

  // ---- listing --------------------------------------------------------------

  /** The query string; a missing parameter reads as "". */
  type Queries = map<string, string>

  function Query(q: Queries, key: string): string
  {
    if key in q then q[key] else ""
  }

  /** A comma-separated list parameter: no list when empty, else its pieces. */
  function ListParam(s: string): (l: seq<string>)
    ensures s == "" <==> l == []
    ensures s != "" ==> Strings.Join(l, ',') == s
    ensures forall i :: 0 <= i < |l| ==> ',' !in l[i]
  {
    if s == "" then []
    else
      Strings.JoinSplit(s, ',');
      Strings.Split(s, ',')
  }

  /** `entity.FilterUser` as the listing fills it. */
  datatype FilterUser = FilterUser(
    id: string, email: string, username: string, firstName: string, lastName: string,
    status: string, gender: string, role: string, provider: string,
    genders: seq<string>, roles: seq<string>,
    perPage: int, offset: int)

  /** The filter for `q` on the page `p` describes. */
  function BuildFilter(q: Queries, p: Pagination.Paginator): (f: FilterUser)
    ensures f.id == Query(q, "id") && f.email == Query(q, "email") && f.username == Query(q, "username")
    ensures f.firstName == Query(q, "first_name") && f.lastName == Query(q, "last_name")
    ensures f.status == Query(q, "status") && f.gender == Query(q, "gender")
    ensures f.role == Query(q, "role") && f.provider == Query(q, "provider")
    ensures f.genders == ListParam(Query(q, "genders")) && f.roles == ListParam(Query(q, "roles"))
    ensures f.perPage == p.perPage && f.offset == p.offset
  {
    FilterUser(Query(q, "id"), Query(q, "email"), Query(q, "username"),
               Query(q, "first_name"), Query(q, "last_name"),
               Query(q, "status"), Query(q, "gender"), Query(q, "role"), Query(q, "provider"),
               ListParam(Query(q, "genders")), ListParam(Query(q, "roles")),
               p.perPage, p.offset)
  }

  /** What the repository's `List` answers: one page of users and the number
      of users the filter matches over all pages. */
  datatype Listing = Listing(users: seq<User>, total: Int64)

  datatype PaginationResponse = PaginationResponse(perPage: int, totalPage: int, totalData: int, page: int)

  const EmptyPagination: PaginationResponse := PaginationResponse(0, 0, 0, 0)

  /** A listing: a runtime panic, or the usecase's four results. */
  datatype ListOutcome<R> =
    | Panicked
    | Listed(data: Option<seq<R>>, pagination: PaginationResponse, status: int, err: Option<GoError>)

  /** The listing for the page `p`: query the repository, convert every user
      in order, and count the pages, which divides by `p.perPage`. */
  function ListPage<R>(ctx: RequestContext.Store, q: Queries, p: Pagination.Paginator,
                       list: FilterUser -> Result<Listing, GoError>, toResponse: User -> R): (o: ListOutcome<R>)
    requires InInt64(p.perPage)
    ensures o.Panicked? <==> list(BuildFilter(q, p)).Success? && p.perPage == 0
    ensures list(BuildFilter(q, p)).Failure? ==>
              o == Listed(None, EmptyPagination, StatusInternalServerError,
                          Some(Messages.GetError(Messages.FailedToGetUsers, Language.GetLangFromContext(ctx))))
    ensures list(BuildFilter(q, p)).Success? && o.Listed? ==>
              var l := list(BuildFilter(q, p)).value;
              && o.status == StatusOK && o.err.None? && o.data.Some?
              && |o.data.value| == |l.users|
              && (forall i :: 0 <= i < |l.users| ==> o.data.value[i] == toResponse(l.users[i]))
              && o.pagination.perPage == p.perPage && o.pagination.page == p.page
              && o.pagination.totalData == l.total
              && Pagination.TotalPage(l.total, p.perPage) == Some(o.pagination.totalPage)
  {
    match list(BuildFilter(q, p))
    case Failure(_) =>
      Listed(None, EmptyPagination, StatusInternalServerError,
             Some(Messages.GetError(Messages.FailedToGetUsers, Language.GetLangFromContext(ctx))))
    case Success(l) =>
      var responses := seq(|l.users|, i requires 0 <= i < |l.users| => toResponse(l.users[i]));
      match Pagination.TotalPage(l.total, p.perPage)
      case None => Panicked
      case Some(totalPage) => Listed(Some(responses), PaginationResponse(p.perPage, totalPage, l.total, p.page), StatusOK, None)
  }

  /** `GetUsers` as written: the page comes from `PaginationBuilder`, which
      lets a `per_page` of zero through. */
  function GetUsers<R>(ctx: RequestContext.Store, q: Queries, list: FilterUser -> Result<Listing, GoError>,
                       toResponse: User -> R): (o: ListOutcome<R>)
    ensures var p := Pagination.PaginationBuilder(Query(q, "per_page"), Query(q, "page"));
            o.Panicked? <==> list(BuildFilter(q, p)).Success? && Atoi(Query(q, "per_page")) == Some(0)
    ensures var p := Pagination.PaginationBuilder(Query(q, "per_page"), Query(q, "page"));
            list(BuildFilter(q, p)).Failure? ==>
              o == Listed(None, EmptyPagination, StatusInternalServerError,
                          Some(Messages.GetError(Messages.FailedToGetUsers, Language.GetLangFromContext(ctx))))
    ensures var p := Pagination.PaginationBuilder(Query(q, "per_page"), Query(q, "page"));
            list(BuildFilter(q, p)).Success? && o.Listed? ==>
              var l := list(BuildFilter(q, p)).value;
              && o.status == StatusOK && o.err.None? && o.data.Some?
              && |o.data.value| == |l.users|
              && (forall i :: 0 <= i < |l.users| ==> o.data.value[i] == toResponse(l.users[i]))
              && o.pagination.perPage == p.perPage && o.pagination.page == p.page
              && o.pagination.totalData == l.total
              && Pagination.TotalPage(l.total, p.perPage) == Some(o.pagination.totalPage)
  {
    ListPage(ctx, q, Pagination.PaginationBuilder(Query(q, "per_page"), Query(q, "page")), list, toResponse)
  }

  /** `?per_page=0` crashes the request once the repository has answered. */
  lemma ZeroPerPageRequestPanics<R>(ctx: RequestContext.Store, q: Queries,
                                    list: FilterUser -> Result<Listing, GoError>, toResponse: User -> R)
    requires Query(q, "per_page") == "0"
    requires list(BuildFilter(q, Pagination.PaginationBuilder("0", Query(q, "page")))).Success?
    ensures GetUsers(ctx, q, list, toResponse).Panicked?
  {
    Pagination.ZeroPerPagePanics(Query(q, "page"), 0);
  }

  /** `GetUsers` with the evidently intended page size: a `per_page` below one
      falls back to the default. */
  function GetUsersClamped<R>(ctx: RequestContext.Store, q: Queries, list: FilterUser -> Result<Listing, GoError>,
                              toResponse: User -> R): (o: ListOutcome<R>)
    ensures o.Listed?
    ensures o.status == StatusOK ==> o.pagination.perPage >= 1
  {
    ListPage(ctx, q, Pagination.ClampedPaginationBuilder(Query(q, "per_page"), Query(q, "page")), list, toResponse)
  }

  /** With the clamped page size the reported page count covers the total:
      `totalPage` pages of `perPage` hold every matching user and one page
      fewer would not. */
  lemma ClampedPagesCoverTotal<R>(ctx: RequestContext.Store, q: Queries,
                                  list: FilterUser -> Result<Listing, GoError>, toResponse: User -> R)
    requires GetUsersClamped(ctx, q, list, toResponse).status == StatusOK
    requires GetUsersClamped(ctx, q, list, toResponse).pagination.totalData >= 0
    ensures var pr := GetUsersClamped(ctx, q, list, toResponse).pagination;
            (pr.totalPage - 1) * pr.perPage < pr.totalData <= pr.totalPage * pr.perPage
  {
    var pr := GetUsersClamped(ctx, q, list, toResponse).pagination;
    Pagination.TotalPageIsCeiling(pr.totalData, pr.perPage);
  }
}
