/**
 * The shared domain errors of the service: eight sentinel errors with fixed
 * texts and `CustomError`, which pairs an HTTP status code and a message with
 * an optional wrapped error.
 */
module DomainError {
  import opened Wrappers

  /** The package-level sentinel error values. */
  datatype Sentinel =
    | UserNotFound | ProductNotFound | InvalidCredentials | UserAlreadyExists
    | InvalidInput | Unauthorized | Forbidden | InternalServer

  /** A Go `error` value: one of the sentinels, or an error raised elsewhere
      (by the database, the hasher, ...) that is known only by its text. */
  datatype GoError = Sentinel(kind: Sentinel) | Raised(text: string)

  function SentinelText(k: Sentinel): string
  {
    match k
    case UserNotFound => "user not found"
    case ProductNotFound => "product not found"
    case InvalidCredentials => "invalid credentials"
    case UserAlreadyExists => "user already exists"
    case InvalidInput => "invalid input"
    case Unauthorized => "unauthorized"
    case Forbidden => "forbidden"
    case InternalServer => "internal server error"
  }

  /** `err.Error()` for any Go error. */
  function ErrorText(e: GoError): string
  {
    match e
    case Sentinel(k) => SentinelText(k)
    case Raised(t) => t
  }

  /** The sentinels' texts are pairwise distinct, so a sentinel can be told
      apart from every other by its text alone. */
  lemma SentinelTextsDistinct(a: Sentinel, b: Sentinel)
    ensures SentinelText(a) == SentinelText(b) <==> a == b
  {
  }

  datatype CustomError = CustomError(code: int, message: string, err: Option<GoError>)

  /** `CustomError.Error()`: the wrapped error's text wins over `Message`. */
  function Error(e: CustomError): (text: string)
    ensures e.err.Some? ==> text == ErrorText(e.err.value)
    ensures e.err.None? ==> text == e.message
  {
    match e.err
    case Some(inner) => ErrorText(inner)
    case None => e.message
  }

  function NewCustomError(code: int, message: string, err: Option<GoError>): (e: CustomError)
    ensures e.code == code && e.message == message && e.err == err
  {
    CustomError(code, message, err)
  }

  /** A custom error that wraps a sentinel reads as the sentinel, whatever its
      own message says. */
  lemma WrappedSentinelHidesMessage(code: int, message: string, k: Sentinel)
    ensures Error(NewCustomError(code, message, Some(Sentinel(k)))) == SentinelText(k)
  {
  }
}
