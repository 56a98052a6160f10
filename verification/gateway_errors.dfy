/**
 * Errors of the gateway's shared error package. The package's message table
 * is not part of this model, so an error built by `errors.GetError(code,
 * lang)` or a message read by `errors.GetErrorMessage(code, lang)` is
 * represented by its code and language; the codes are the same names the
 * monolith's table declares.
 */
module GatewayErrors {
  import opened Locale
  import Messages

  datatype CodedError = CodedError(code: Messages.ErrCode, lang: Lang)
}
