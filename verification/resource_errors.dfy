/** The resource service's exceptions and its `GlobalExceptionHandler`, which
    turns each of them into an HTTP status and an `ApiError` body. */
module ResourceErrors {
  import opened Wrappers
  import opened ApiErrors
  import Numerals
  import opened JavaText

  /** Every exception the modelled resource-service code raises or that the
      framework hands to the handler. */
  datatype ResourceException =
    | ResourceNotFound(message: string)
    | InvalidMp3(message: string)
    | InvalidSongMetadata(message: string, violations: seq<Violation>)
    | InvalidResourceId(message: string)
    | InvalidCsv(message: string)
    | SongServiceFailure(message: string)
    | ArgumentNotValid(fieldErrors: seq<FieldError>)
    | TypeMismatch(parameter: string, value: Option<string>)
    | UnsupportedMediaType(contentType: Option<string>)
    | NotReadable
    | InvalidFileType(message: string)
    | NoSuchElement(message: string)
    | NumberFormat(message: string)
    | Runtime(message: string)
    | IllegalState(message: string)

  /** The exceptions the handler answers with 400 Bad Request. */
  predicate IsBadRequest(e: ResourceException) {
    || e.InvalidMp3? || e.InvalidSongMetadata? || e.InvalidResourceId? || e.InvalidCsv?
    || e.ArgumentNotValid? || e.TypeMismatch? || e.UnsupportedMediaType? || e.NotReadable?
  }

  const GenericErrorMessage := "An unexpected error occurred"
  const SongServiceUnavailable := "Failed to communicate with Song Service"

  /** The status each handler method answers with. */
  function Status(e: ResourceException): (status: nat)
    ensures status == 404 <==> e.ResourceNotFound?
    ensures status == 400 <==> IsBadRequest(e)
    ensures status == 500 <==> !e.ResourceNotFound? && !IsBadRequest(e)
  {
    if e.ResourceNotFound? then 404 else if IsBadRequest(e) then 400 else 500
  }

  /** The `errorMessage` each handler method reports. */
  function Message(e: ResourceException): string {
    match e
    case ResourceNotFound(m) => m
    case ArgumentNotValid(_) => "Validation error"
    case InvalidMp3(m) => m
    case InvalidSongMetadata(m, _) => m
    case TypeMismatch(p, v) => "Invalid value '" + Show(v) + "' for parameter '" + p + "'"
    case UnsupportedMediaType(ct) =>
      "Invalid file format: " + (if ct.Some? then ct.value else "unknown") + ". Only MP3 files are allowed"
    case NotReadable => "Invalid request body"
    case InvalidResourceId(m) => m
    case InvalidCsv(m) => m
    case SongServiceFailure(_) => SongServiceUnavailable
    case _ => GenericErrorMessage
  }

  function Details(e: ResourceException): Option<map<string, Option<string>>> {
    match e
    case ArgumentNotValid(errs) => Some(MergeFieldErrors(errs))
    case InvalidSongMetadata(_, vs) => Some(ViolationDetails(vs))
    case _ => None
  }

  /** The handler: 404 for a missing resource, 400 for the client errors, 500
      with a fixed message for everything else; the error code is the status. */
  function Handle(e: ResourceException): (r: Response)
    ensures r.status == 404 <==> e.ResourceNotFound?
    ensures r.status == 400 <==> IsBadRequest(e)
    ensures r.status == 500 <==> !e.ResourceNotFound? && !IsBadRequest(e)
    ensures r.status == 500 ==> r.body.errorMessage == (if e.SongServiceFailure? then SongServiceUnavailable else GenericErrorMessage)
    ensures r.body.details.Some? <==> e.ArgumentNotValid? || e.InvalidSongMetadata?
    ensures e.ArgumentNotValid? ==> r.body.details == Some(MergeFieldErrors(e.fieldErrors))
    ensures e.InvalidSongMetadata? ==> r.body.details == Some(ViolationDetails(e.violations))
    ensures (e.ResourceNotFound? || e.InvalidMp3? || e.InvalidResourceId? || e.InvalidCsv?) ==> r.body.errorMessage == e.message
    ensures Numerals.AllDigits(r.body.errorCode) && Numerals.Value(r.body.errorCode) == r.status
  {
    BuildErrorResponse(Status(e), Message(e), Details(e))
  }

  /** An unsupported upload without a content type is reported as "unknown". */
  lemma UnsupportedWithoutContentType()
    ensures Handle(UnsupportedMediaType(None)).body.errorMessage
            == "Invalid file format: " + "unknown" + ". Only MP3 files are allowed"
  {
    var e := UnsupportedMediaType(None);
    assert Handle(e).body.errorMessage == Message(e);
  }
}
