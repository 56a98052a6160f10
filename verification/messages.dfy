/**
 * The localised error-message table of the monolith: thirteen error codes,
 * each with an English and an Indonesian text, looked up by code and
 * language with an English fallback.
 */
module Messages {
  import opened Wrappers
  import DomainError
  import opened Locale

  /** Error codes are plain integers, numbered in declaration order. */
  type ErrCode = int
  const SomethingWentWrong: ErrCode := 0
  const InvalidInput: ErrCode := 1
  const ValidationFailed: ErrCode := 2
  const Unauthorized: ErrCode := 3
  const InvalidCredentials: ErrCode := 4
  const UserAlreadyExists: ErrCode := 5
  const UsernameAlreadyTaken: ErrCode := 6
  const FailedToHashPassword: ErrCode := 7
  const FailedToCreateUser: ErrCode := 8
  const FailedToGenerateToken: ErrCode := 9
  const UserNotFound: ErrCode := 10
  const FailedToUpdateUser: ErrCode := 11
  const FailedToGetUsers: ErrCode := 12

  /** The codes the table declares. */
  predicate Declared(code: ErrCode) { SomethingWentWrong <= code <= FailedToGetUsers }

  /** The message table: `None` for a code it has no entry for. */
  function ErrMessages(code: ErrCode): Option<map<Lang, string>>
  {
    if code == SomethingWentWrong then Some(Entry("something went wrong", "terjadi kesalahan"))
    else if code == InvalidInput then Some(Entry("invalid input", "input tidak valid"))
    else if code == ValidationFailed then Some(Entry("validation failed", "validasi gagal"))
    else if code == Unauthorized then Some(Entry("unauthorized", "tidak memiliki akses"))
    else if code == InvalidCredentials then Some(Entry("invalid email or password", "email atau password salah"))
    else if code == UserAlreadyExists then Some(Entry("user already exists", "pengguna sudah terdaftar"))
    else if code == UsernameAlreadyTaken then Some(Entry("username already taken", "username sudah digunakan"))
    else if code == FailedToHashPassword then Some(Entry("failed to process password", "gagal memproses password"))
    else if code == FailedToCreateUser then Some(Entry("failed to create user", "gagal membuat pengguna"))
    else if code == FailedToGenerateToken then Some(Entry("failed to generate token", "gagal membuat token"))
    else if code == UserNotFound then Some(Entry("user not found", "pengguna tidak ditemukan"))
    else if code == FailedToUpdateUser then Some(Entry("failed to update user", "gagal memperbarui pengguna"))
    else if code == FailedToGetUsers then Some(Entry("failed to get users", "gagal mengambil data pengguna"))
    else None
  }

  const UnknownError: string := "unknown error"

  /** `GetErrorMessage`: the requested language's text, else the English
      text, else "unknown error". */
  function GetErrorMessage(code: ErrCode, lang: Lang): (msg: string)
    ensures ErrMessages(code).Some? && lang in ErrMessages(code).value
            ==> msg == ErrMessages(code).value[lang]
    ensures ErrMessages(code).Some? && lang !in ErrMessages(code).value
            ==> msg == ErrMessages(code).value[LangEN]
    ensures ErrMessages(code).None? ==> msg == UnknownError
  {
    if ErrMessages(code).Some? then
      var msgs := ErrMessages(code).value;
      if lang in msgs then msgs[lang]
      else if LangEN in msgs then msgs[LangEN]
      else UnknownError
    else UnknownError
  }

  /** `GetError`: a fresh error carrying the same text `GetErrorMessage`
      returns. */
  function GetError(code: ErrCode, lang: Lang): (e: DomainError.GoError)
    ensures DomainError.ErrorText(e) == GetErrorMessage(code, lang)
  {
    if ErrMessages(code).Some? then
      var msgs := ErrMessages(code).value;
      if lang in msgs then DomainError.Raised(msgs[lang])
      else if LangEN in msgs then DomainError.Raised(msgs[LangEN])
      else DomainError.Raised(UnknownError)
    else DomainError.Raised(UnknownError)
  }

  /** The table covers exactly the declared codes, each in both languages. */
  lemma TableIsComplete(code: ErrCode)
    ensures ErrMessages(code).Some? <==> Declared(code)
    ensures Declared(code) ==> ErrMessages(code).value.Keys == {LangEN, LangID}
  {
  }

  /** Any language other than "id" reads the English text of a declared code,
      and a declared code never reads "unknown error". */
  lemma FallbackToEnglish(code: ErrCode, lang: Lang)
    requires Declared(code)
    ensures lang != LangID ==> GetErrorMessage(code, lang) == GetErrorMessage(code, LangEN)
    ensures GetErrorMessage(code, lang) != UnknownError
  {
    TableIsComplete(code);
  }
}
