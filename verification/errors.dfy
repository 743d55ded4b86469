/**
 * The closed set of failures the application reports and the global handler
 * that turns each into an HTTP status and an error body.
 */
module Errors {
  import opened Wrappers
  import opened Decimal
  import opened Constraints
  import Exceptions

  const BadRequest := 400
  const NotFound := 404
  const Conflict := 409
  const InternalServerError := 500
  const ServiceUnavailable := 503

  /** One rejected request parameter: its name and the value given for it. */
  datatype ParameterResult = ParameterResult(parameterName: string, argument: int)

  /** The failure kinds, one per exception the handler distinguishes. */
  datatype ErrorKind =
    | BookNotFound(id: string)                  // BookNotFoundException
    | InvalidObjectId(id: string)               // InvalidObjectIdException
    | DuplicateKey(isbn: string, message: string)  // MongoWriteException, DuplicateKeyException
    | BodyValidation(fieldErrors: seq<FieldError>)   // MethodArgumentNotValidException
    | ParameterValidation(reason: string, results: seq<ParameterResult>)  // HandlerMethodValidationException
    | StoreTimeout(message: string)             // MongoTimeoutException
    | UnreadableBody(message: string)           // HttpMessageNotReadableException
    | MissingValue(message: string)             // MissingRequestValueException
    | Unexpected(message: string)               // any other exception

  /** `ValidationErrorResponse.ValidationError`. */
  datatype ValidationError = ValidationError(parameter: string, message: string)

  /** `ErrorResponse`, with the error list of `ValidationErrorResponse` when there is one. */
  datatype ErrorResponse = ErrorResponse(status: int, message: string, errors: Option<seq<ValidationError>>)

  /** A `ResponseEntity<ErrorResponse>`: the HTTP status and the body. */
  datatype ErrorReply = ErrorReply(status: int, body: ErrorResponse)

  const ValidationMessage := "There was an error validating the input."

  /** "The value %s is not valid." filled with the rejected argument. */
  function ParameterMessage(argument: int): string {
    "The value " + IntToString(argument) + " is not valid."
  }

  /** The errors of a rejected body: one per field error, same field and message, same order. */
  function FieldErrorsToList(errs: seq<FieldError>): (r: seq<ValidationError>)
    ensures |r| == |errs|
    ensures forall i | 0 <= i < |r| :: r[i] == ValidationError(errs[i].field, errs[i].message)
  {
    seq(|errs|, i requires 0 <= i < |errs| => ValidationError(errs[i].field, errs[i].message))
  }

  /** The errors of rejected parameters: one per parameter, named after it, quoting its value. */
  function ParameterErrorsToList(results: seq<ParameterResult>): (r: seq<ValidationError>)
    ensures |r| == |results|
    ensures forall i | 0 <= i < |r| ::
      r[i] == ValidationError(results[i].parameterName, ParameterMessage(results[i].argument))
  {
    seq(|results|, i requires 0 <= i < |results| =>
      ValidationError(results[i].parameterName, ParameterMessage(results[i].argument)))
  }

  /** The failures the client caused. */
  predicate IsClientError(f: ErrorKind) {
    f.BookNotFound? || f.InvalidObjectId? || f.DuplicateKey? || f.BodyValidation?
    || f.ParameterValidation? || f.UnreadableBody? || f.MissingValue?
  }

  /**
   * The global exception handler. In every case the body's status equals the
   * HTTP status; client failures get a 4xx status and the others a 5xx one.
   * Only the two validation failures carry an error list.
   */
  function Handle(f: ErrorKind): (r: ErrorReply)
    ensures r.body.status == r.status
    ensures IsClientError(f) <==> 400 <= r.status < 500
    ensures !IsClientError(f) <==> 500 <= r.status < 600
    ensures r.body.errors.Some? <==> f.BodyValidation? || f.ParameterValidation?
    ensures f.BookNotFound? ==>
      r.status == NotFound == Exceptions.BookNotFoundStatus && r.body.message == Exceptions.BookNotFoundMessage(f.id)
    ensures f.InvalidObjectId? ==>
      r.status == BadRequest == Exceptions.InvalidObjectIdStatus && r.body.message == Exceptions.InvalidObjectIdMessage(f.id)
    ensures f.DuplicateKey? ==> r.status == Conflict && r.body.message == f.message
    ensures f.BodyValidation? ==>
      r.status == BadRequest && r.body.message == ValidationMessage && r.body.errors == Some(FieldErrorsToList(f.fieldErrors))
    ensures f.ParameterValidation? ==>
      r.status == BadRequest && r.body.message == f.reason && r.body.errors == Some(ParameterErrorsToList(f.results))
    ensures f.StoreTimeout? ==> r.status == ServiceUnavailable && r.body.message == f.message
    ensures f.UnreadableBody? || f.MissingValue? ==> r.status == BadRequest && r.body.message == f.message
    ensures f.Unexpected? ==> r.status == InternalServerError && r.body.message == f.message
  {
    match f
    case BookNotFound(id) =>
      Plain(NotFound, Exceptions.BookNotFoundMessage(id))
    case InvalidObjectId(id) =>
      Plain(BadRequest, Exceptions.InvalidObjectIdMessage(id))
    case DuplicateKey(_, message) =>
      Plain(Conflict, message)
    case BodyValidation(errs) =>
      ErrorReply(BadRequest, ErrorResponse(BadRequest, ValidationMessage, Some(FieldErrorsToList(errs))))
    case ParameterValidation(reason, results) =>
      ErrorReply(BadRequest, ErrorResponse(BadRequest, reason, Some(ParameterErrorsToList(results))))
    case StoreTimeout(message) =>
      Plain(ServiceUnavailable, message)
    case UnreadableBody(message) =>
      Plain(BadRequest, message)
    case MissingValue(message) =>
      Plain(BadRequest, message)
    case Unexpected(message) =>
      Plain(InternalServerError, message)
  }

  /** A reply whose body has a status and a message only. */
  function Plain(status: int, message: string): ErrorReply {
    ErrorReply(status, ErrorResponse(status, message, None))
  }

  /** The message for a page parameter of -1. */
  lemma NegativeArgumentMessage()
    ensures ParameterMessage(-1) == "The value -1 is not valid."
  {
  }
}
