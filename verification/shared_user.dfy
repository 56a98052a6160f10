/**
 * The user entity shared by the gateway's services: a string UUID primary
 * key, unique email and username, the stored password hash and the profile
 * names. GORM's timestamps and soft-delete marker are not part of the model.
 */
module SharedUser {

  const UuidLength: nat := 36

  datatype User = User(
    id: string,
    email: string,
    username: string,
    password: string,
    firstName: string,
    lastName: string,
    isActive: bool)

  /** `NewUser`: the five arguments copied verbatim, a fresh UUID as the id
      (`freshId` stands for `uuid.New().String()`), and the account active. */
  function NewUser(freshId: string, email: string, username: string, password: string,
                   firstName: string, lastName: string): (u: User)
    requires |freshId| == UuidLength
    ensures u.id == freshId && u.id != ""
    ensures u.email == email && u.username == username && u.password == password
    ensures u.firstName == firstName && u.lastName == lastName
    ensures u.isActive
  {
    User(freshId, email, username, password, firstName, lastName, true)
  }

  /** The `BeforeCreate` hook: assigns a fresh UUID only when the id is
      empty. It never fails, so no error is returned. */
  function BeforeCreate(u: User, freshId: string): (v: User)
    requires |freshId| == UuidLength
    ensures v.id != ""
    ensures u.id != "" ==> v == u
    ensures v.(id := u.id) == u
  {
    if u.id == "" then u.(id := freshId) else u
  }

  /** Running the hook twice is running it once: the second run sees a
      non-empty id and changes nothing. */
  lemma BeforeCreateIdempotent(u: User, first: string, second: string)
    requires |first| == UuidLength && |second| == UuidLength
    ensures BeforeCreate(BeforeCreate(u, first), second) == BeforeCreate(u, first)
  {
  }

  /** A user built by `NewUser` already has an id, so the hook keeps it. */
  lemma NewUserSurvivesHook(freshId: string, hookId: string, email: string, username: string,
                            password: string, firstName: string, lastName: string)
    requires |freshId| == UuidLength && |hookId| == UuidLength
    ensures var u := NewUser(freshId, email, username, password, firstName, lastName);
            BeforeCreate(u, hookId) == u
  {
  }

  /** The user as it is returned to clients: the same record with an empty
      password. */
  function Stripped(u: User): (v: User)
    ensures v.password == ""
    ensures v.(password := u.password) == u
  {
    u.(password := "")
  }
}
