/**
 * Request bodies of the auth and profile endpoints and the gateway's field
 * validators. A validator returns a map from field name to the messages for
 * that field, in the order they were appended; an empty map means valid.
 * Lengths are Go byte lengths.
 */
module AuthDto {
  import opened Locale
  import opened Validation

  datatype RegisterRequest = RegisterRequest(
    email: string, username: string, password: string, firstName: string, lastName: string)

  datatype LoginRequest = LoginRequest(email: string, password: string)

  datatype UpdateProfileRequest = UpdateProfileRequest(firstName: string, lastName: string)

  type Errors = map<string, seq<Message>>

  const UsernameMin: int := 3
  const UsernameMax: int := 20
  const PasswordMin: int := 6

  const RegisterFields: set<string> := {"email", "username", "password", "first_name", "last_name"}

  /** `fmt.Sprintf(GetValidationMessage(Required, lang), field)`. */
  function RequiredMessage(field: string, lang: Lang): Message
  {
    Formatted(GetValidationMessage(Required, lang), StrArg(field))
  }

  /** The e-mail rule shared by both forms: required, then well-formed. */
  function EmailErrors(email: string, lang: Lang): (m: seq<Message>)
    ensures |m| <= 1
    ensures m == [] <==> IsValidEmail(email)
    ensures email == "" ==> m == [RequiredMessage("email", lang)]
    ensures email != "" && !IsValidEmail(email) ==> m == [Raw(GetValidationMessage(InvalidEmail, lang))]
  {
    if email == "" then [RequiredMessage("email", lang)]
    else if !IsValidEmail(email) then [Raw(GetValidationMessage(InvalidEmail, lang))]
    else []
  }

  /** Username: required; otherwise a too-short and then a too-long message,
      each appended when its bound is broken. */
  function UsernameErrors(username: string, lang: Lang): (m: seq<Message>)
    ensures |m| <= 1
    ensures m == [] <==> username != "" && UsernameMin <= ByteLen(username) <= UsernameMax
    ensures username == "" ==> m == [RequiredMessage("username", lang)]
  {
    if username == "" then [RequiredMessage("username", lang)]
    else
      (if !MinLength(username, UsernameMin) then [Formatted(GetValidationMessage(UsernameTooShort, lang), IntArg(UsernameMin))] else [])
      + (if !MaxLength(username, UsernameMax) then [Formatted(GetValidationMessage(UsernameTooLong, lang), IntArg(UsernameMax))] else [])
  }

  function PasswordErrors(password: string, lang: Lang): (m: seq<Message>)
    ensures |m| <= 1
    ensures m == [] <==> password != "" && ByteLen(password) >= PasswordMin
    ensures password == "" ==> m == [RequiredMessage("password", lang)]
  {
    if password == "" then [RequiredMessage("password", lang)]
    else if !MinLength(password, PasswordMin) then [Formatted(GetValidationMessage(PasswordTooShort, lang), IntArg(PasswordMin))]
    else []
  }

  function RequiredErrors(value: string, field: string, lang: Lang): (m: seq<Message>)
    ensures m == [] <==> value != ""
    ensures value == "" ==> m == [RequiredMessage(field, lang)]
  {
    if value == "" then [RequiredMessage(field, lang)] else []
  }

  /** The messages the registration rules produce for one field. */
  function RegisterFieldErrors(r: RegisterRequest, field: string, lang: Lang): seq<Message>
  {
    if field == "email" then EmailErrors(r.email, lang)
    else if field == "username" then UsernameErrors(r.username, lang)
    else if field == "password" then PasswordErrors(r.password, lang)
    else if field == "first_name" then RequiredErrors(r.firstName, "first_name", lang)
    else if field == "last_name" then RequiredErrors(r.lastName, "last_name", lang)
    else []
  }

  /** A registration form every rule accepts. */
  predicate RegisterValid(r: RegisterRequest)
  {
    && IsValidEmail(r.email)
    && r.username != "" && UsernameMin <= ByteLen(r.username) <= UsernameMax
    && r.password != "" && ByteLen(r.password) >= PasswordMin
    && r.firstName != "" && r.lastName != ""
  }

  /** `RegisterRequest.Validate`: each field's rule, in the order email,
      username, password, first name, last name; a field appears as a key
      exactly when its rule produced a message. */
  function ValidateRegister(r: RegisterRequest, lang: Lang): (errs: Errors)
    ensures errs.Keys <= RegisterFields
    ensures forall k :: k in errs ==> |errs[k]| == 1
    ensures "email" in errs <==> !IsValidEmail(r.email)
    ensures "username" in errs <==> !(r.username != "" && UsernameMin <= ByteLen(r.username) <= UsernameMax)
    ensures "password" in errs <==> !(r.password != "" && ByteLen(r.password) >= PasswordMin)
    ensures "first_name" in errs <==> r.firstName == ""
    ensures "last_name" in errs <==> r.lastName == ""
  {
    map field | field in RegisterFields && RegisterFieldErrors(r, field, lang) != [] :: RegisterFieldErrors(r, field, lang)
  }

  /** The form is accepted exactly when every rule holds. */
  lemma ValidateRegisterAcceptsExactlyValid(r: RegisterRequest, lang: Lang)
    ensures ValidateRegister(r, lang) == map[] <==> RegisterValid(r)
  {
    var errs := ValidateRegister(r, lang);
    if errs == map[] {
      assert EmailErrors(r.email, lang) == [] && UsernameErrors(r.username, lang) == [];
      assert "email" !in errs && "username" !in errs && "password" !in errs;
      assert "first_name" !in errs && "last_name" !in errs;
    } else {
      var k :| k in errs;
      assert k in RegisterFields;
    }
  }

  /** The messages under each key: the required message for an empty field,
      the e-mail message for a malformed address, the bound a username or
      password breaks. */
  lemma RegisterMessages(r: RegisterRequest, lang: Lang)
    ensures var errs := ValidateRegister(r, lang);
            && (r.email == "" ==> errs["email"] == [RequiredMessage("email", lang)])
            && (r.email != "" && !IsValidEmail(r.email) ==> errs["email"] == [Raw(GetValidationMessage(InvalidEmail, lang))])
            && (r.username == "" ==> errs["username"] == [RequiredMessage("username", lang)])
            && (r.username != "" && ByteLen(r.username) < UsernameMin ==>
                  errs["username"] == [Formatted(GetValidationMessage(UsernameTooShort, lang), IntArg(UsernameMin))])
            && (r.username != "" && ByteLen(r.username) > UsernameMax ==>
                  errs["username"] == [Formatted(GetValidationMessage(UsernameTooLong, lang), IntArg(UsernameMax))])
            && (r.password == "" ==> errs["password"] == [RequiredMessage("password", lang)])
            && (r.password != "" && ByteLen(r.password) < PasswordMin ==>
                  errs["password"] == [Formatted(GetValidationMessage(PasswordTooShort, lang), IntArg(PasswordMin))])
            && (r.firstName == "" ==> errs["first_name"] == [RequiredMessage("first_name", lang)])
            && (r.lastName == "" ==> errs["last_name"] == [RequiredMessage("last_name", lang)])
  {
  }

  /** `LoginRequest.Validate`: the e-mail rule, and a password that is only
      required to be present. */
  function ValidateLogin(r: LoginRequest, lang: Lang): (errs: Errors)
    ensures errs.Keys <= {"email", "password"}
    ensures forall k :: k in errs ==> |errs[k]| == 1
    ensures "email" in errs <==> !IsValidEmail(r.email)
    ensures "password" in errs <==> r.password == ""
    ensures "email" in errs ==> errs["email"] == EmailErrors(r.email, lang)
    ensures "password" in errs ==> errs["password"] == [RequiredMessage("password", lang)]
  {
    var email := EmailErrors(r.email, lang);
    var password := RequiredErrors(r.password, "password", lang);
    var errs: Errors := map[];
    var errs := if email != [] then errs["email" := email] else errs;
    if password != [] then errs["password" := password] else errs
  }

  /** Any non-empty password passes login validation, however short. */
  lemma LoginHasNoLengthRule(email: string, password: string, lang: Lang)
    requires IsValidEmail(email) && password != ""
    ensures ValidateLogin(LoginRequest(email, password), lang) == map[]
  {
    var errs := ValidateLogin(LoginRequest(email, password), lang);
    assert "email" !in errs && "password" !in errs;
  }

  /** `UpdateProfileRequest.Validate`: at least one name must be given; when
      both are empty each gets the Required template, unformatted. */
  function ValidateUpdateProfile(r: UpdateProfileRequest, lang: Lang): (errs: Errors)
    ensures r.firstName != "" || r.lastName != "" ==> errs == map[]
    ensures r.firstName == "" && r.lastName == "" ==>
              && errs.Keys == {"first_name", "last_name"}
              && errs["first_name"] == [Raw(GetValidationMessage(Required, lang))]
              && errs["last_name"] == [Raw(GetValidationMessage(Required, lang))]
  {
    if r.firstName == "" && r.lastName == "" then
      map["first_name" := [Raw(GetValidationMessage(Required, lang))],
          "last_name" := [Raw(GetValidationMessage(Required, lang))]]
    else map[]
  }
}
