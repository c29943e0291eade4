/**
 * GNSResponseCode, which is not part of this model: the three codes the
 * modelled code names, and every other code as its protocol code and
 * whether it counts as an error. The protocol codes of the named ones
 * stand for the constants they carry.
 */
module GnsResponseCode {
  import opened Protocol

  datatype ResponseCode =
    | NO_ERROR
    | STALE_COMMAND_VALUE
    | SIGNATURE_ERROR
    | Code(code: string, error: bool)

  /** `isError()` / `isAnError()`. */
  predicate IsError(c: ResponseCode)
  {
    match c
    case NO_ERROR => false
    case STALE_COMMAND_VALUE => true
    case SIGNATURE_ERROR => true
    case Code(_, error) => error
  }

  /** `getProtocolCode()`: the token a bad response carries after BAD_RESPONSE. */
  function ProtocolCode(c: ResponseCode): string
  {
    match c
    case NO_ERROR => OK_RESPONSE
    case STALE_COMMAND_VALUE => STALE_COMMAND
    case SIGNATURE_ERROR => BAD_SIGNATURE
    case Code(code, _) => code
  }
}
