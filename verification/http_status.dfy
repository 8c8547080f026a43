/** The status codes the member handlers answer with (section 15 of RFC 9110) and the shared
    mapping from a store error to a status. */
module HttpStatus {

  import opened Wrappers

  /** A status code: a three-digit integer from 100 to 599, the range Fastify's `reply.code`
      accepts */
  type StatusCode = c: int | 100 <= c <= 599 witness 500

  /** The status code a store error may carry: a status code, or 0, which `||` treats as absent */
  type ErrorCode = c: int | c == 0 || 100 <= c <= 599 witness 0

  const OK: StatusCode := 200
  const NoContent: StatusCode := 204
  const BadRequest: StatusCode := 400
  const NotFound: StatusCode := 404
  const InternalServerError: StatusCode := 500

  /** `error.statusCode || 500`: the error's own status code when it has a non-zero one,
      otherwise 500. */
  function ErrorStatus(statusCode: Option<ErrorCode>): (status: StatusCode)
    ensures statusCode.Some? && statusCode.value != 0 ==> status == statusCode.value
    ensures (statusCode.None? || statusCode == Some(0)) ==> status == InternalServerError
  {
    match statusCode
    case Some(code) => if code != 0 then code else InternalServerError
    case None => InternalServerError
  }
}
