/**
 * The gateway's user usecase: profile read and update and a plain page of
 * users. Every user it returns has its password cleared; the stored rows
 * keep their hashes.
 */
module GatewayUser {
  import opened Wrappers
  import opened DomainError
  import opened SharedUser
  import opened GatewayErrors
  import UserStore
  import Table
  import Messages
  import Language
  import RequestContext
  import AuthDto
  import Profile

  const StatusOK: int := 200
  const StatusNotFound: int := 404
  const StatusInternalServerError: int := 500

  datatype Reply<D> = Reply(data: Option<D>, status: int, err: Option<CodedError>)

  function Failed<D>(status: int, code: Messages.ErrCode, ctx: RequestContext.Store): Reply<D>
  {
    Reply(None, status, Some(CodedError(code, Language.GetLangFromContext(ctx))))
  }

  /** `GetProfile`: the caller's row without its password, or 404. */
  function GetProfile(rows: UserStore.Rows, ctx: RequestContext.Store, userID: string,
                      fault: Option<GoError>): (r: Reply<User>)
    ensures r.status == StatusOK <==> fault.None? && Table.Taken(rows, UserStore.IdOf, userID)
    ensures r.status == StatusOK ==>
              && r.err.None? && r.data.Some? && r.data.value.password == "" && r.data.value.id == userID
              && r.data.value.(password := UserStore.GetByID(rows, userID, None).value.password) in rows
    ensures r.status != StatusOK ==> r == Failed(StatusNotFound, Messages.UserNotFound, ctx)
  {
    match UserStore.GetByID(rows, userID, fault)
    case Failure(_) => Failed(StatusNotFound, Messages.UserNotFound, ctx)
    case Success(u) => Reply(Some(Stripped(u)), StatusOK, None)
  }

  datatype UpdateOutcome = UpdateOutcome(reply: Reply<User>, rows: UserStore.Rows)

  /** `UpdateProfile`: the stored row gets the new names and keeps its hash;
      the answer is the updated user without its password. */
  function UpdateProfile(rows: UserStore.Rows, ctx: RequestContext.Store, userID: string,
                         req: AuthDto.UpdateProfileRequest, lookupFault: Option<GoError>,
                         updateFault: Option<GoError>): (o: UpdateOutcome)
    ensures o.reply.status == StatusOK <==>
              lookupFault.None? && Table.Taken(rows, UserStore.IdOf, userID) && updateFault.None?
    ensures o.reply.status != StatusOK ==> o.rows == rows
    ensures lookupFault.Some? || !Table.Taken(rows, UserStore.IdOf, userID) ==>
              o.reply == Failed(StatusNotFound, Messages.UserNotFound, ctx)
    ensures lookupFault.None? && Table.Taken(rows, UserStore.IdOf, userID) && updateFault.Some? ==>
              o.reply == Failed(StatusInternalServerError, Messages.FailedToUpdateUser, ctx)
    ensures o.reply.status == StatusOK ==>
              var v := Profile.ApplyUpdate(UserStore.GetByID(rows, userID, None).value, req);
              && v.password == UserStore.GetByID(rows, userID, None).value.password
              && o.reply == Reply(Some(Stripped(v)), StatusOK, None)
              && o.rows == UserStore.Update(rows, v, None).value
  {
    match UserStore.GetByID(rows, userID, lookupFault)
    case Failure(_) => UpdateOutcome(Failed(StatusNotFound, Messages.UserNotFound, ctx), rows)
    case Success(u) =>
      var v := Profile.ApplyUpdate(u, req);
      match UserStore.Update(rows, v, updateFault)
      case Failure(_) => UpdateOutcome(Failed(StatusInternalServerError, Messages.FailedToUpdateUser, ctx), rows)
      case Success(updated) => UpdateOutcome(Reply(Some(Stripped(v)), StatusOK, None), updated)
  }

  /** After a successful update the profile reads back what the update
      answered. */
  lemma UpdateThenGetProfile(rows: UserStore.Rows, ctx: RequestContext.Store, userID: string,
                             req: AuthDto.UpdateProfileRequest)
    requires UpdateProfile(rows, ctx, userID, req, None, None).reply.status == StatusOK
    ensures var o := UpdateProfile(rows, ctx, userID, req, None, None);
            GetProfile(o.rows, ctx, userID, None) == o.reply
  {
    var v := Profile.ApplyUpdate(UserStore.GetByID(rows, userID, None).value, req);
    UserStore.UpdateThenGetByID(rows, v);
  }

  /** `GetUsers`: the repository's page (`list`, or its error) with every
      password cleared, in the repository's order. */
  method GetUsers(ctx: RequestContext.Store, list: Result<seq<User>, GoError>) returns (r: Reply<seq<User>>)
    ensures r.status == StatusOK <==> list.Success?
    ensures list.Failure? ==> r == Failed(StatusInternalServerError, Messages.FailedToGetUsers, ctx)
    ensures list.Success? ==>
              && r.err.None? && r.data.Some? && |r.data.value| == |list.value|
              && forall i :: 0 <= i < |list.value| ==>
                   r.data.value[i].password == "" && r.data.value[i].(password := list.value[i].password) == list.value[i]
  {
    if list.Failure? {
      return Failed(StatusInternalServerError, Messages.FailedToGetUsers, ctx);
    }
    var users := list.value;
    var out: seq<User> := [];
    var i := 0;
    while i < |users|
      invariant 0 <= i <= |users|
      invariant |out| == i
      invariant forall k :: 0 <= k < i ==> out[k] == Stripped(users[k])
    {
      out := out + [Stripped(users[i])];
      i := i + 1;
    }
    return Reply(Some(out), StatusOK, None);
  }
}
