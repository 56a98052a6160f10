/**
 * The user entity of the monolith's auth feature: an auto-increment numeric
 * id next to a UUID, unique e-mail and username, and explicit creation and
 * update times. Its table enforces the unique indexes and numbers new rows.
 */
module AuthUser {
  import opened Wrappers
  import Table
  import DomainError
  import AuthDto

  const UuidLength: nat := 36

  datatype User = User(
    id: nat,
    uuid: string,
    email: string,
    username: string,
    password: string,
    firstName: string,
    lastName: string,
    isActive: bool,
    createdAt: int,
    updatedAt: int)

  /** `NewUser(req)`: the request's fields copied verbatim, the password
      still in plain text (hashing is the caller's job), a fresh UUID
      (`freshUuid`), the id left zero for the database to assign, active,
      and both timestamps `now`. */
  function NewUser(req: AuthDto.RegisterRequest, freshUuid: string, now: int): (u: User)
    requires |freshUuid| == UuidLength
    ensures u.email == req.email && u.username == req.username && u.password == req.password
    ensures u.firstName == req.firstName && u.lastName == req.lastName
    ensures u.isActive && u.id == 0 && u.uuid == freshUuid
    ensures u.createdAt == now && u.updatedAt == now
  {
    User(0, freshUuid, req.email, req.username, req.password, req.firstName, req.lastName, true, now, now)
  }

  // ---- the table ----------------------------------------------------------

  type Rows = seq<User>

  const DuplicateText: string := "duplicate key value violates unique constraint"

  function IdOf(u: User): nat { u.id }
  function UuidOf(u: User): string { u.uuid }
  function EmailOf(u: User): string { u.email }
  function UsernameOf(u: User): string { u.username }

  predicate Unique(rows: Rows)
  {
    && Table.UniqueOn(rows, IdOf) && Table.UniqueOn(rows, UuidOf)
    && Table.UniqueOn(rows, EmailOf) && Table.UniqueOn(rows, UsernameOf)
  }

  /** The id the auto-increment column hands out next: one past the largest. */
  function NextId(rows: Rows): (n: nat)
    ensures n >= 1
    ensures forall i :: 0 <= i < |rows| ==> rows[i].id < n
  {
    if |rows| == 0 then 1
    else
      var m := NextId(rows[..|rows| - 1]);
      if rows[|rows| - 1].id + 1 > m then rows[|rows| - 1].id + 1 else m
  }

  /** `Create`: numbers the row and inserts it unless the database fails or
      a unique index would be violated; the created row is returned with its
      id, as GORM writes the key back. */
  function Create(rows: Rows, u: User, fault: Option<DomainError.GoError>): (r: Result<(Rows, User), DomainError.GoError>)
    ensures r.Success? <==>
              fault.None? && !Table.Taken(rows, UuidOf, u.uuid)
              && !Table.Taken(rows, EmailOf, u.email) && !Table.Taken(rows, UsernameOf, u.username)
    ensures r.Success? ==> r.value.1 == u.(id := NextId(rows)) && r.value.0 == rows + [r.value.1]
  {
    if fault.Some? then Failure(fault.value)
    else if Table.Taken(rows, UuidOf, u.uuid) || Table.Taken(rows, EmailOf, u.email) || Table.Taken(rows, UsernameOf, u.username)
    then Failure(DomainError.Raised(DuplicateText))
    else
      var v := u.(id := NextId(rows));
      Success((rows + [v], v))
  }

  /** Every successful insert keeps all four unique indexes. */
  lemma CreatePreservesUnique(rows: Rows, u: User, fault: Option<DomainError.GoError>)
    requires Unique(rows)
    requires Create(rows, u, fault).Success?
    ensures Unique(Create(rows, u, fault).value.0)
  {
    var v := u.(id := NextId(rows));
    assert !Table.Taken(rows, IdOf, v.id);
    Table.AppendKeepsUnique(rows, IdOf, v);
    Table.AppendKeepsUnique(rows, UuidOf, v);
    Table.AppendKeepsUnique(rows, EmailOf, v);
    Table.AppendKeepsUnique(rows, UsernameOf, v);
  }
}
