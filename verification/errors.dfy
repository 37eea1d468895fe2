/** The client's error type, `SpicError` (src/spic_client.rs). */
module Errors {

  /** Payloads the model cannot see (a reqwest error, a `ParseIntError`'s
      kind) are dropped; the texts the source fixes are kept. */
  datatype SpicError =
    | NetworkError
    | DateParseError(message: string)
    | JsonError(caller: string, source: string)
    | ParseIntError
    | AuthenticationError(message: string)

  /** Text of the error `authenticate` raises when the platform answers
      but does not grant the session. */
  const AuthenticationFailed: string := "Authentication failed"

  /** Text of the error every failed parse of a login response collapses to. */
  const UnparseableAuthResponse: string := "Unable to parse authentication response"
}

/** The platform's online-data enumerations. Nothing in the client reads
    them yet; they fix the numbering of the platform's error codes. */
module OnlineData {

  datatype OnlineDataErrorCode =
    | BadRequest
    | RightsViolation
    | InternalError
    | TerminalNotFound
    | SubscriptionNotFound
    | OnlineDataNotFound
  {
    /** The explicit discriminant the enum gives each code. */
    function Code(): (c: int)
      ensures 200 <= c <= 205
      ensures c == 200 <==> this == BadRequest
    {
      match this
      case BadRequest => 200
      case RightsViolation => 201
      case InternalError => 202
      case TerminalNotFound => 203
      case SubscriptionNotFound => 204
      case OnlineDataNotFound => 205
    }
  }

  /** Distinct codes get distinct numbers, so a code can be recovered from
      its number. */
  lemma CodeInjective(a: OnlineDataErrorCode, b: OnlineDataErrorCode)
    ensures a.Code() == b.Code() ==> a == b
  {
  }

  datatype OnlineDataStatus = None | Ok | Error | Busy | PartialOk
}
