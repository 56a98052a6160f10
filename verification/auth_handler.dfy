/**
 * The auth endpoints' handler: bind the body, validate it in the request's
 * language, and only then call the usecase, whose status is echoed. A body
 * that fails JSON binding is `Failure(text)` with the binder's error text.
 * The request bodies and their validators are the gateway's; the monolith's
 * own request types declare no validator of their own.
 */
module AuthHandler {
  import opened Wrappers
  import opened Envelope
  import opened RequestContext
  import AuthDto
  import Language
  import Messages
  import Validation
  import Locale

  const StatusBadRequest: int := 400

  /** The 400 every rejected body gets: "validation failed" in the request's
      language, with the field errors. */
  function Rejected<D>(c: Gin, errs: Errors): (r: Response<D>)
    ensures r.isError && r.status == StatusBadRequest && r.data.None? && r.errors == errs
    ensures r.message == Messages.GetErrorMessage(Messages.ValidationFailed, Language.GetLangFromGin(c))
  {
    NewResponse(StatusBadRequest, None, Messages.GetErrorMessage(Messages.ValidationFailed, Language.GetLangFromGin(c)), errs)
  }

  /** A binding failure's errors: its text under "body". */
  function BodyErrors(text: string): (errs: Errors)
    ensures errs.Keys == {"body"} && errs["body"] == [Validation.Raw(text)]
  {
    map["body" := [Validation.Raw(text)]]
  }

  function Register<D>(c: Gin, body: Result<AuthDto.RegisterRequest, string>,
                       usecase: AuthDto.RegisterRequest -> Reply<D>): (h: Handled<AuthDto.RegisterRequest, D>)
    ensures h.call.Some? <==> body.Success? && AuthDto.RegisterValid(body.value)
    ensures body.Failure? ==> h.response == Rejected(c, BodyErrors(body.error))
    ensures body.Success? && !AuthDto.RegisterValid(body.value) ==>
              h.response == Rejected(c, AuthDto.ValidateRegister(body.value, Language.GetLangFromGin(c)))
    ensures h.call.Some? ==>
              h.call.value == body.value && h.response == Relay(usecase(body.value), "User registered successfully")
  {
    var lang := Language.GetLangFromGin(c);
    match body
    case Failure(text) => Handled(Rejected(c, BodyErrors(text)), None)
    case Success(req) =>
      var errs := AuthDto.ValidateRegister(req, lang);
      AuthDto.ValidateRegisterAcceptsExactlyValid(req, lang);
      if |errs| > 0 then Handled(Rejected(c, errs), None)
      else Handled(Relay(usecase(req), "User registered successfully"), Some(req))
  }

  function Login<D>(c: Gin, body: Result<AuthDto.LoginRequest, string>,
                    usecase: AuthDto.LoginRequest -> Reply<D>): (h: Handled<AuthDto.LoginRequest, D>)
    ensures h.call.Some? <==> body.Success? && Validation.IsValidEmail(body.value.email) && body.value.password != ""
    ensures body.Failure? ==> h.response == Rejected(c, BodyErrors(body.error))
    ensures body.Success? && h.call.None? ==>
              h.response == Rejected(c, AuthDto.ValidateLogin(body.value, Language.GetLangFromGin(c)))
    ensures h.call.Some? ==> h.call.value == body.value && h.response == Relay(usecase(body.value), "Login successful")
  {
    var lang := Language.GetLangFromGin(c);
    match body
    case Failure(text) => Handled(Rejected(c, BodyErrors(text)), None)
    case Success(req) =>
      var errs := AuthDto.ValidateLogin(req, lang);
      if |errs| > 0 then Handled(Rejected(c, errs), None)
      else Handled(Relay(usecase(req), "Login successful"), Some(req))
  }

  /** A registration without an email that reaches validation, from an
      Indonesian client, is refused in Indonesian before the usecase runs,
      with exactly the gateway validator's "required" message under "email". */
  lemma MissingEmailRefused<D>(c: Gin, req: AuthDto.RegisterRequest, usecase: AuthDto.RegisterRequest -> Reply<D>)
    requires req.email == ""
    requires Language.GetLangFromGin(c) == Locale.LangID
    ensures var h := Register(c, Success(req), usecase);
            && h.call.None?
            && h.response.status == 400
            && h.response.message == "validasi gagal"
            && h.response.errors["email"] == [AuthDto.RequiredMessage("email", Locale.LangID)]
  {
    AuthDto.RegisterMessages(req, Locale.LangID);
    Messages.TableIsComplete(Messages.ValidationFailed);
    assert !Validation.IsValidEmail(req.email);
  }

  /** The monolith's request type tags the e-mail `binding:"required,email"`,
      so a body without one fails at binding: the Indonesian client gets
      "validasi gagal" with the binder's text under "body" alone, and the
      usecase is not called. */
  lemma MissingEmailRejectedAtBinding<D>(c: Gin, text: string, usecase: AuthDto.RegisterRequest -> Reply<D>)
    requires Language.GetLangFromGin(c) == Locale.LangID
    ensures var h := Register(c, Failure(text), usecase);
            && h.call.None?
            && h.response.status == 400
            && h.response.message == "validasi gagal"
            && h.response.errors == BodyErrors(text)
            && "email" !in h.response.errors
  {
    Messages.TableIsComplete(Messages.ValidationFailed);
  }

  /** Whatever the usecase answers for a valid login, the handler relays its
      status unchanged: 401 for bad credentials, 200 with the payload. */
  lemma LoginStatusEchoed<D>(c: Gin, req: AuthDto.LoginRequest, usecase: AuthDto.LoginRequest -> Reply<D>)
    requires Validation.IsValidEmail(req.email) && req.password != ""
    ensures Login(c, Success(req), usecase).response.status == usecase(req).status
    ensures usecase(req).err.None? ==> Login(c, Success(req), usecase).response.data == usecase(req).data
  {
  }
}
