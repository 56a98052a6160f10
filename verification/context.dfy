/**
 * Values a request carries between middleware and handlers: the gin
 * context's key/value store (`c.Set`/`c.Get`) and the values attached to the
 * request's `context.Context`. Go stores them as `interface{}`; the variants
 * here are the dynamic types the core puts in and type-asserts out.
 */
module RequestContext {
  import Jwt
  import opened Locale

  datatype Value =
    | LangValue(lang: Lang)                          // a `constants.Lang`
    | Text(text: string)                             // a plain `string`
    | ClaimsValue(claims: Jwt.Claims<Jwt.Identity>)  // a `*jwt.Claims`
    | Other                                          // any other dynamic type

  type Store = map<string, Value>

  /** A gin context: its own keys and its request's context values. */
  datatype Gin = Gin(keys: Store, request: Store)

  /** What a middleware does with a request: answer it with a status and a
      message and stop the chain, or pass it on with an updated context. */
  datatype Gate<M> = Abort(status: int, message: M) | Next(ctx: Gin)
}
