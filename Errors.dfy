/**
 * The error side of the task API: field-level violations, the typed
 * application errors the handlers raise, the HTTP status codes, and the
 * uniform error envelope the error-handling middleware writes.
 */
module Errors {

  /** One field-level validation failure, `{field, message}` in the response. */
  datatype Violation = Violation(field: string, message: string)

  /** The failures a request can end in. */
  datatype AppError =
    | ValidationError(details: seq<Violation>)
    | NotFoundError

  /** The status codes the task API answers with. */
  datatype Status = Ok | Created | BadRequest | NotFound {
    function Code(): (c: nat)
      ensures 200 <= c < 500
      ensures c < 300 <==> (this == Ok || this == Created)
    {
      match this
      case Ok => 200
      case Created => 201
      case BadRequest => 400
      case NotFound => 404
    }
  }

  /** The JSON body of every error response: `{error, details}`. */
  datatype ErrorEnvelope = ErrorEnvelope(error: string, details: seq<Violation>)

  const ValidationFailedLabel: string := "Validation failed"
  const TaskNotFoundLabel: string := "Task not found"

  /** The single place that turns a typed failure into a status and a body. */
  function StatusOf(e: AppError): (s: Status)
    ensures s == BadRequest <==> e.ValidationError?
    ensures s == NotFound <==> e.NotFoundError?
    ensures s.Code() >= 400
  {
    match e
    case ValidationError(_) => BadRequest
    case NotFoundError => NotFound
  }

  function EnvelopeOf(e: AppError): (env: ErrorEnvelope)
    ensures e.ValidationError? ==> env.error == ValidationFailedLabel && env.details == e.details
    ensures e.NotFoundError? ==> env.error == TaskNotFoundLabel && env.details == []
  {
    match e
    case ValidationError(details) => ErrorEnvelope(ValidationFailedLabel, details)
    case NotFoundError => ErrorEnvelope(TaskNotFoundLabel, [])
  }

  /** Distinct failures are told apart by the response: the envelope loses nothing. */
  lemma EnvelopeDeterminesError(e1: AppError, e2: AppError)
    requires StatusOf(e1) == StatusOf(e2) && EnvelopeOf(e1) == EnvelopeOf(e2)
    ensures e1 == e2
  {
  }

}
