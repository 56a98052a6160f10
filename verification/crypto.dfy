/**
 * Password hashing behind the auth usecases. bcrypt is a pair of functions
 * here: `hash` turns a plaintext and a salt into a hash, `verify` decides
 * whether a plaintext matches a hash. `Sound` states the behaviour the
 * repository relies on: a hash verifies its own plaintext, rejects every
 * other one, and never equals the plaintext.
 */
module Crypto {
  import opened Wrappers
  import DomainError

  datatype Hasher = Hasher(hash: (string, nat) -> string, verify: (string, string) -> bool)

  ghost predicate Sound(h: Hasher)
  {
    && (forall p, salt :: h.verify(h.hash(p, salt), p))
    && (forall p, q, salt :: p != q ==> !h.verify(h.hash(p, salt), q))
    && (forall p, salt :: h.hash(p, salt) != p)
  }

  const MismatchText: string := "crypto/bcrypt: hashedPassword is not the hash of the given password"

  /** `HashPassword`: the hash, or the error bcrypt reports (`fault`), in
      which case no hash is returned. */
  function HashPassword(h: Hasher, password: string, salt: nat, fault: Option<DomainError.GoError>): (r: Result<string, DomainError.GoError>)
    ensures fault.Some? <==> r.Failure?
    ensures r.Failure? ==> r.error == fault.value
    ensures Sound(h) && r.Success? ==> r.value != password && h.verify(r.value, password)
  {
    match fault
    case Some(e) => Failure(e)
    case None => Success(h.hash(password, salt))
  }

  /** `VerifyPassword`: `None` (a nil error) exactly when the plaintext
      matches the hash. */
  function VerifyPassword(h: Hasher, hashed: string, password: string): (r: Option<DomainError.GoError>)
    ensures r.None? <==> h.verify(hashed, password)
  {
    if h.verify(hashed, password) then None else Some(DomainError.Raised(MismatchText))
  }

  /** A successful hash verifies against the same password and against no
      other. */
  lemma HashThenVerify(h: Hasher, password: string, other: string, salt: nat)
    requires Sound(h)
    ensures var r := HashPassword(h, password, salt, None);
            r.Success? && VerifyPassword(h, r.value, password).None?
    ensures other != password ==>
              VerifyPassword(h, HashPassword(h, password, salt, None).value, other).Some?
  {
  }
}
