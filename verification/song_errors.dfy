/** The song service's exceptions and its `GlobalExceptionHandler`. */
module SongErrors {
  import opened Wrappers
  import opened ApiErrors
  import Numerals
  import JavaText

  datatype SongException =
    | SongAlreadyExists(message: string)
    | SongNotFound(message: string)
    | InvalidSongId(message: string)
    | ArgumentNotValid(fieldErrors: seq<FieldError>)
    | NotReadable
    | TypeMismatch(parameter: string, value: Option<string>)
    | InvalidCsv(message: string)
    | IllegalArgument(message: string)
    | NoSuchElement(message: string)
    | DataIntegrityViolation(message: string)

  predicate IsBadRequest(e: SongException) {
    e.InvalidSongId? || e.ArgumentNotValid? || e.NotReadable? || e.TypeMismatch? || e.InvalidCsv?
  }

  const GenericErrorMessage := "An unexpected error occurred"

  function Status(e: SongException): (status: nat)
    ensures status == 409 <==> e.SongAlreadyExists?
    ensures status == 404 <==> e.SongNotFound?
    ensures status == 400 <==> IsBadRequest(e)
    ensures status == 500 <==> !e.SongAlreadyExists? && !e.SongNotFound? && !IsBadRequest(e)
  {
    if e.SongAlreadyExists? then 409 else if e.SongNotFound? then 404 else if IsBadRequest(e) then 400 else 500
  }

  function Message(e: SongException): string {
    match e
    case SongAlreadyExists(m) => m
    case SongNotFound(m) => m
    case InvalidSongId(m) => m
    case ArgumentNotValid(_) => "Validation error"
    case NotReadable => "Invalid request body"
    case TypeMismatch(p, v) => "Invalid value '" + JavaText.Show(v) + "' for parameter '" + p + "'"
    case InvalidCsv(m) => m
    case _ => GenericErrorMessage
  }

  /** The handler: 409 for an existing song, 404 for a missing one, 400 for the
      client errors and 500 "An unexpected error occurred" for everything else. */
  function Handle(e: SongException): (r: Response)
    ensures r.status == 409 <==> e.SongAlreadyExists?
    ensures r.status == 404 <==> e.SongNotFound?
    ensures r.status == 400 <==> IsBadRequest(e)
    ensures r.status == 500 <==> !e.SongAlreadyExists? && !e.SongNotFound? && !IsBadRequest(e)
    ensures r.status == 500 ==> r.body.errorMessage == GenericErrorMessage
    ensures (e.SongAlreadyExists? || e.SongNotFound? || e.InvalidSongId? || e.InvalidCsv?) ==> r.body.errorMessage == e.message
    ensures e.ArgumentNotValid? ==> r.body.errorMessage == "Validation error"
    ensures e.NotReadable? ==> r.body.errorMessage == "Invalid request body"
    ensures e.TypeMismatch? ==>
      && JavaText.StartsWith(r.body.errorMessage, "Invalid value '" + JavaText.Show(e.value))
      && JavaText.EndsWith(r.body.errorMessage, "' for parameter '" + e.parameter + "'")
    ensures r.body.details.Some? <==> e.ArgumentNotValid?
    ensures e.ArgumentNotValid? ==> r.body.details == Some(MergeFieldErrors(e.fieldErrors))
    ensures Numerals.AllDigits(r.body.errorCode) && Numerals.Value(r.body.errorCode) == r.status
  {
    BuildErrorResponse(Status(e), Message(e), if e.ArgumentNotValid? then Some(MergeFieldErrors(e.fieldErrors)) else None)
  }
}
