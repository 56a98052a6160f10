/**
 * The unified JSON envelope the handlers and middlewares answer with, and
 * the `(value, status, error)` triple their usecases return.
 */
module Envelope {
  import opened Wrappers
  import opened DomainError
  import Validation

  type Errors = map<string, seq<Validation.Message>>

  /** `response.Response`: a nil `errs` is the empty map. */
  datatype Response<D> = Response(isError: bool, status: int, message: string, data: Option<D>, errors: Errors)

  /** `NewResponse`: a status of 400 or more marks the response an error. */
  function NewResponse<D>(status: int, data: Option<D>, message: string, errs: Errors): (r: Response<D>)
    ensures r.isError <==> status >= 400
    ensures r.status == status && r.data == data && r.message == message && r.errors == errs
  {
    Response(status >= 400, status, message, data, errs)
  }

  /** What a usecase answers: a value, an HTTP status and an error. */
  datatype Reply<D> = Reply(data: Option<D>, status: int, err: Option<GoError>)

  /** A handler's answer together with the arguments its usecase was called
      with, or `None` when the handler answered without calling it. */
  datatype Handled<A, D> = Handled(response: Response<D>, call: Option<A>)

  /** The last step every handler shares: the usecase's error text under its
      status, or its value under its status with `success`. */
  function Relay<D>(reply: Reply<D>, success: string): (r: Response<D>)
    ensures r.status == reply.status
    ensures reply.err.Some? ==> r.data.None? && r.message == ErrorText(reply.err.value) && r.errors == map[]
    ensures reply.err.None? ==> r.data == reply.data && r.message == success && r.errors == map[]
  {
    match reply.err
    case Some(e) => NewResponse(reply.status, None, ErrorText(e), map[])
    case None => NewResponse(reply.status, reply.data, success, map[])
  }
}
