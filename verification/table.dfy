/**
 * Rows of a table as a sequence, with the two notions the repositories need:
 * the first row a `WHERE` clause selects (`First`), and a column whose values
 * are unique (a unique index).
 */
module Table {
  import opened Wrappers
  import DomainError

  const NotFoundText: string := "record not found"

  /** The first row satisfying `p`, or `None` when no row does. */
  function FirstWhere<U>(rows: seq<U>, p: U -> bool): (r: Option<U>)
    ensures r.None? <==> forall i :: 0 <= i < |rows| ==> !p(rows[i])
    ensures r.Some? ==> p(r.value) && r.value in rows
    ensures r.Some? ==> exists i :: 0 <= i < |rows| && rows[i] == r.value && forall j :: 0 <= j < i ==> !p(rows[j])
  {
    if |rows| == 0 then None
    else if p(rows[0]) then Some(rows[0])
    else
      var r := FirstWhere(rows[1..], p);
      assert r.Some? ==> forall j :: 0 <= j < |rows| - 1 ==> rows[1..][j] == rows[j + 1];
      r
  }

  /** A repository lookup by one column: the first row whose column equals
      `value`, GORM's "record not found" when there is none, or `fault`, a
      database failure, which takes precedence. */
  function Lookup<U>(rows: seq<U>, column: U -> string, value: string, fault: Option<DomainError.GoError>): (r: Result<U, DomainError.GoError>)
    ensures fault.Some? ==> r == Failure(fault.value)
    ensures fault.None? && r.Success? ==> r.value in rows && column(r.value) == value
    ensures fault.None? ==> (r.Failure? <==> !Taken(rows, column, value))
    ensures fault.None? && UniqueOn(rows, column) ==>
              forall i :: 0 <= i < |rows| && column(rows[i]) == value ==> r == Success(rows[i])
  {
    match fault
    case Some(e) => Failure(e)
    case None =>
      match FirstWhere(rows, (u: U) => column(u) == value)
      case Some(u) => Success(u)
      case None => Failure(DomainError.Raised(NotFoundText))
  }

  /** A value held by no row but the appended one is found in that row. */
  lemma LookupAppended<U>(rows: seq<U>, column: U -> string, u: U, value: string)
    requires !Taken(rows, column, value)
    requires column(u) == value
    ensures Lookup(rows + [u], column, value, None) == Success(u)
  {
    var s := rows + [u];
    var r := FirstWhere(s, (v: U) => column(v) == value);
    assert column(s[|rows|]) == value;
    var i :| 0 <= i < |s| && s[i] == r.value && column(r.value) == value;
    assert i == |rows|;
  }

  /** No two rows agree on `key`. */
  predicate UniqueOn<U, K(==)>(rows: seq<U>, key: U -> K)
  {
    forall i, j :: 0 <= i < j < |rows| ==> key(rows[i]) != key(rows[j])
  }

  /** Some row has `key` equal to `k`. */
  predicate Taken<U, K(==)>(rows: seq<U>, key: U -> K, k: K)
  {
    exists i :: 0 <= i < |rows| && key(rows[i]) == k
  }

  /** Appending a row whose key is not taken keeps the column unique. */
  lemma AppendKeepsUnique<U, K>(rows: seq<U>, key: U -> K, u: U)
    requires UniqueOn(rows, key)
    requires !Taken(rows, key, key(u))
    ensures UniqueOn(rows + [u], key)
  {
    var s := rows + [u];
    forall i, j | 0 <= i < j < |s|
      ensures key(s[i]) != key(s[j])
    {
      if j == |rows| {
        assert s[i] == rows[i];
      } else {
        assert s[i] == rows[i] && s[j] == rows[j];
      }
    }
  }
}
