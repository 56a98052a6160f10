/**
 * The profile update both user usecases apply to a stored user: a non-empty
 * first or last name in the request replaces the stored one, and nothing
 * else about the user changes.
 */
module Profile {
  import opened SharedUser
  import AuthDto

  function ApplyUpdate(u: User, req: AuthDto.UpdateProfileRequest): (v: User)
    ensures v.(firstName := u.firstName, lastName := u.lastName) == u
    ensures req.firstName != "" ==> v.firstName == req.firstName
    ensures req.firstName == "" ==> v.firstName == u.firstName
    ensures req.lastName != "" ==> v.lastName == req.lastName
    ensures req.lastName == "" ==> v.lastName == u.lastName
  {
    var u := if req.firstName != "" then u.(firstName := req.firstName) else u;
    if req.lastName != "" then u.(lastName := req.lastName) else u
  }

  /** Applying the same request twice is applying it once. */
  lemma ApplyUpdateIdempotent(u: User, req: AuthDto.UpdateProfileRequest)
    ensures ApplyUpdate(ApplyUpdate(u, req), req) == ApplyUpdate(u, req)
  {
  }

  /** A request the profile validator rejects changes nothing, and one it
      accepts names at least one field that is then set. */
  lemma ValidatorAgreesWithUpdate(u: User, req: AuthDto.UpdateProfileRequest, lang: string)
    ensures AuthDto.ValidateUpdateProfile(req, lang) != map[] ==> ApplyUpdate(u, req) == u
    ensures AuthDto.ValidateUpdateProfile(req, lang) == map[] ==>
              ApplyUpdate(u, req).firstName == req.firstName || ApplyUpdate(u, req).lastName == req.lastName
  {
  }
}
