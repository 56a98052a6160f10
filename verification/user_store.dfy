/**
 * The `users` table behind the user repositories, as a sequence of rows.
 * Lookups return the first matching row or an error (GORM's "record not
 * found", or `fault`, a database failure passed in); `Create` enforces the
 * unique indexes on id, email and username.
 */
module UserStore {
  import opened Wrappers
  import opened SharedUser
  import Table
  import DomainError

  type Rows = seq<User>

  const DuplicateText: string := "duplicate key value violates unique constraint"

  function IdOf(u: User): string { u.id }
  function EmailOf(u: User): string { u.email }
  function UsernameOf(u: User): string { u.username }

  /** The table's unique indexes hold. */
  predicate Unique(rows: Rows)
  {
    Table.UniqueOn(rows, IdOf) && Table.UniqueOn(rows, EmailOf) && Table.UniqueOn(rows, UsernameOf)
  }

  function GetByEmail(rows: Rows, email: string, fault: Option<DomainError.GoError>): (r: Result<User, DomainError.GoError>)
    ensures fault.Some? ==> r == Failure(fault.value)
    ensures fault.None? ==> (r.Success? <==> exists i :: 0 <= i < |rows| && rows[i].email == email)
    ensures r.Success? ==> r.value in rows && r.value.email == email
    ensures fault.None? && Table.UniqueOn(rows, EmailOf) ==>
              forall i :: 0 <= i < |rows| && rows[i].email == email ==> r == Success(rows[i])
  {
    Table.Lookup(rows, EmailOf, email, fault)
  }

  function GetByUsername(rows: Rows, username: string, fault: Option<DomainError.GoError>): (r: Result<User, DomainError.GoError>)
    ensures fault.Some? ==> r == Failure(fault.value)
    ensures fault.None? ==> (r.Success? <==> exists i :: 0 <= i < |rows| && rows[i].username == username)
    ensures r.Success? ==> r.value in rows && r.value.username == username
    ensures fault.None? && Table.UniqueOn(rows, UsernameOf) ==>
              forall i :: 0 <= i < |rows| && rows[i].username == username ==> r == Success(rows[i])
  {
    Table.Lookup(rows, UsernameOf, username, fault)
  }

  function GetByID(rows: Rows, id: string, fault: Option<DomainError.GoError>): (r: Result<User, DomainError.GoError>)
    ensures fault.Some? ==> r == Failure(fault.value)
    ensures fault.None? ==> (r.Success? <==> exists i :: 0 <= i < |rows| && rows[i].id == id)
    ensures r.Success? ==> r.value in rows && r.value.id == id
    ensures fault.None? && Table.UniqueOn(rows, IdOf) ==>
              forall i :: 0 <= i < |rows| && rows[i].id == id ==> r == Success(rows[i])
  {
    Table.Lookup(rows, IdOf, id, fault)
  }

  /** `Create`: runs the `BeforeCreate` hook, then inserts the row unless
      the database fails or a unique index would be violated. */
  function Create(rows: Rows, u: User, hookId: string, fault: Option<DomainError.GoError>): (r: Result<Rows, DomainError.GoError>)
    requires |hookId| == UuidLength
    ensures r.Success? ==> r.value == rows + [BeforeCreate(u, hookId)]
    ensures r.Success? <==>
              && fault.None?
              && !Table.Taken(rows, IdOf, BeforeCreate(u, hookId).id)
              && !Table.Taken(rows, EmailOf, u.email)
              && !Table.Taken(rows, UsernameOf, u.username)
  {
    var v := BeforeCreate(u, hookId);
    if fault.Some? then Failure(fault.value)
    else if Table.Taken(rows, IdOf, v.id) || Table.Taken(rows, EmailOf, v.email) || Table.Taken(rows, UsernameOf, v.username)
    then Failure(DomainError.Raised(DuplicateText))
    else Success(rows + [v])
  }

  /** Every successful insert keeps the unique indexes. */
  lemma CreatePreservesUnique(rows: Rows, u: User, hookId: string, fault: Option<DomainError.GoError>)
    requires |hookId| == UuidLength
    requires Unique(rows)
    requires Create(rows, u, hookId, fault).Success?
    ensures Unique(Create(rows, u, hookId, fault).value)
  {
    var v := BeforeCreate(u, hookId);
    Table.AppendKeepsUnique(rows, IdOf, v);
    Table.AppendKeepsUnique(rows, EmailOf, v);
    Table.AppendKeepsUnique(rows, UsernameOf, v);
  }

  /** `Update`: overwrites the row with the user's id; a missing row is left
      alone, as an `UPDATE` that matches nothing. */
  function Update(rows: Rows, u: User, fault: Option<DomainError.GoError>): (r: Result<Rows, DomainError.GoError>)
    ensures fault.Some? <==> r.Failure?
    ensures r.Success? ==> |r.value| == |rows|
    ensures r.Success? ==> forall i :: 0 <= i < |rows| ==>
              r.value[i] == (if rows[i].id == u.id then u else rows[i])
  {
    if fault.Some? then Failure(fault.value)
    else Success(seq(|rows|, i requires 0 <= i < |rows| => if rows[i].id == u.id then u else rows[i]))
  }

  /** After an update the row is read back by its id as written, whatever
      other rows hold: every row that had the id now holds the new user. */
  lemma UpdateThenGetByID(rows: Rows, v: User)
    requires Table.Taken(rows, IdOf, v.id)
    ensures GetByID(Update(rows, v, None).value, v.id, None) == Success(v)
  {
    var updated := Update(rows, v, None).value;
    var i :| 0 <= i < |rows| && IdOf(rows[i]) == v.id;
    assert IdOf(updated[i]) == v.id;
    var r := GetByID(updated, v.id, None);
    assert r.Success?;
    var j :| 0 <= j < |updated| && updated[j] == r.value;
  }

  /** Rewriting the one row with `v`'s id by a user with the same email and
      username keeps the unique indexes. */
  lemma UpdatePreservesUnique(rows: Rows, v: User)
    requires Unique(rows)
    requires GetByID(rows, v.id, None).Success?
    requires GetByID(rows, v.id, None).value.email == v.email
    requires GetByID(rows, v.id, None).value.username == v.username
    ensures Unique(Update(rows, v, None).value)
  {
    var updated := Update(rows, v, None).value;
    var old_ := GetByID(rows, v.id, None).value;
    var k :| 0 <= k < |rows| && rows[k] == old_;
    assert forall i :: 0 <= i < |rows| && rows[i].id == v.id ==> i == k;
    assert forall i :: 0 <= i < |rows| ==>
      updated[i].id == rows[i].id && updated[i].email == rows[i].email && updated[i].username == rows[i].username;
  }
}
