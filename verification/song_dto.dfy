/** `SongDto`: the song service's request and response record, with the same
    field constraints as the resource service's metadata plus a required id. */
module SongDto {
  import opened Wrappers
  import opened BeanValidation
  import opened ApiErrors
  import opened JavaText
  import SongMetadata

  datatype SongDto = SongDto(id: Option<int>, name: Option<string>, artist: Option<string>, album: Option<string>,
                             year: Option<string>, duration: Option<string>)

  predicate Valid(d: SongDto) {
    d.id.Some? && TextFieldOk(d.name) && TextFieldOk(d.artist) && TextFieldOk(d.album)
    && YearOk(d.year) && DurationOk(d.duration)
  }

  /** The song the create request describes: the resource id plus the metadata. */
  function FromMetadata(id: int, m: SongMetadata.SongMetadataDto): SongDto {
    SongDto(Some(id), m.name, m.artist, m.album, m.year, m.duration)
  }

  /** The two records carry identical field constraints: metadata is valid
      exactly when the song built from it with an id is. */
  lemma ValidFromMetadata(id: int, m: SongMetadata.SongMetadataDto)
    ensures SongMetadata.Valid(m) <==> Valid(FromMetadata(id, m))
  {
  }

  function Check(field: string, ok: bool, message: string): (r: seq<FieldError>)
    ensures |r| == 0 <==> ok
    ensures forall e :: e in r ==> e == FieldError(field, Some(message))
  {
    if ok then [] else [FieldError(field, Some(message))]
  }

  /** The field errors of one NotBlank and Size(max 100) component. */
  function TextErrors(field: string, v: Option<string>, required: string, size: string): (r: seq<FieldError>)
    ensures |r| == 0 <==> TextFieldOk(v)
    ensures forall e :: e in r ==> e.field == field
  {
    Check(field, NotBlank(v), required) + Check(field, SizeAtMost(v, 100), size)
  }

  /** The field errors of one NotBlank and pattern component. */
  function PatternErrors(field: string, v: Option<string>, ok: bool, required: string, mismatch: string): (r: seq<FieldError>)
    ensures |r| == 0 <==> NotBlank(v) && ok
    ensures forall e :: e in r ==> e.field == field
  {
    Check(field, NotBlank(v), required) + Check(field, ok, mismatch)
  }

  /** The range the three size messages state. */
  const SizeRange := "between 1 and 100 characters"

  /** The messages `SongDto` declares; they differ from the metadata's only
      in the artist's size message. The size and pattern messages are spelled
      in two parts, each short enough for the proofs below to see that it has
      no 'q'. */
  const DtoMessages := SongMetadata.Messages(
    "Song name is required", "Name must be " + SizeRange,
    "Artist name is required", "Artist name must be " + SizeRange,
    "Album name is required", "Album must be " + SizeRange,
    "Year is required", "Year must be " + "between 1900 and 2099",
    "Duration is required", "Duration must be in mm:ss " + "format with leading zeros")

  const IdRequired := "ID is required"

  /** The binding result's field errors: the id's, then field by field. */
  function FieldErrorsWith(msg: SongMetadata.Messages, d: SongDto): (errors: seq<FieldError>)
    ensures |errors| == 0 <==> Valid(d)
    ensures FieldError("id", Some(IdRequired)) in errors <==> d.id.None?
    ensures forall e :: e in errors && e.field == "id" ==> e.message == Some(IdRequired)
  {
    Check("id", d.id.Some?, IdRequired)
    + TextErrors("name", d.name, msg.nameRequired, msg.nameSize)
    + TextErrors("artist", d.artist, msg.artistRequired, msg.artistSize)
    + TextErrors("album", d.album, msg.albumRequired, msg.albumSize)
    + PatternErrors("year", d.year, d.year.None? || MatchesYear(d.year.value), msg.yearRequired, msg.yearPattern)
    + PatternErrors("duration", d.duration, d.duration.None? || MatchesTwoDigitMinutes(d.duration.value),
                    msg.durationRequired, msg.durationPattern)
  }

  /** The binding result's field errors for an invalid request body. */
  function FieldErrors(d: SongDto): (errors: seq<FieldError>)
    ensures |errors| == 0 <==> Valid(d)
    ensures FieldError("id", Some(IdRequired)) in errors <==> d.id.None?
  {
    FieldErrorsWith(DtoMessages, d)
  }

  /** A message ending in "is required" says it. */
  lemma SaysRequired(s: string, prefix: string)
    requires s == prefix + "is required"
    ensures IsRequiredMessage(Some(s))
  {
    ContainsAt(s, "is required", |prefix|);
  }

  /** A message without a 'q', given in two parts, cannot say "is required". */
  lemma LacksRequired(s: string, a: string, b: string)
    requires s == a + b && 'q' !in a && 'q' !in b
    ensures !IsRequiredMessage(Some(s))
  {
    AbsentCharNotContained(s, "is required", 'q');
  }

  // One message per lemma, each literal fact on its own: the solver handles
  // them separately but not together.

  lemma SaysIdRequired()
    ensures IsRequiredMessage(Some(IdRequired))
  {
    SaysRequired(IdRequired, "ID ");
  }

  lemma SaysNameRequired()
    ensures IsRequiredMessage(Some(DtoMessages.nameRequired))
  {
    SaysRequired(DtoMessages.nameRequired, "Song name ");
  }

  lemma SaysArtistRequired()
    ensures IsRequiredMessage(Some(DtoMessages.artistRequired))
  {
    SaysRequired(DtoMessages.artistRequired, "Artist name ");
  }

  lemma SaysAlbumRequired()
    ensures IsRequiredMessage(Some(DtoMessages.albumRequired))
  {
    SaysRequired(DtoMessages.albumRequired, "Album name ");
  }

  lemma SaysYearRequired()
    ensures IsRequiredMessage(Some(DtoMessages.yearRequired))
  {
    SaysRequired(DtoMessages.yearRequired, "Year ");
  }

  lemma SaysDurationRequired()
    ensures IsRequiredMessage(Some(DtoMessages.durationRequired))
  {
    SaysRequired(DtoMessages.durationRequired, "Duration ");
  }

  lemma NameSizeNotRequired()
    ensures !IsRequiredMessage(Some(DtoMessages.nameSize))
  {
    LacksRequired(DtoMessages.nameSize, "Name must be ", SizeRange);
  }

  lemma ArtistSizeNotRequired()
    ensures !IsRequiredMessage(Some(DtoMessages.artistSize))
  {
    LacksRequired(DtoMessages.artistSize, "Artist name must be ", SizeRange);
  }

  lemma AlbumSizeNotRequired()
    ensures !IsRequiredMessage(Some(DtoMessages.albumSize))
  {
    LacksRequired(DtoMessages.albumSize, "Album must be ", SizeRange);
  }

  lemma YearPatternNotRequired()
    ensures !IsRequiredMessage(Some(DtoMessages.yearPattern))
  {
    LacksRequired(DtoMessages.yearPattern, "Year must be ", "between 1900 and 2099");
  }

  lemma DurationPatternNotRequired()
    ensures !IsRequiredMessage(Some(DtoMessages.durationPattern))
  {
    LacksRequired(DtoMessages.durationPattern, "Duration must be in mm:ss ", "format with leading zeros");
  }

  /** Each field's "required" message says "is required" and its other
      message does not, so two errors of one field never tie. */
  predicate Classified(msg: SongMetadata.Messages) {
    && IsRequiredMessage(Some(msg.nameRequired)) && !IsRequiredMessage(Some(msg.nameSize))
    && IsRequiredMessage(Some(msg.artistRequired)) && !IsRequiredMessage(Some(msg.artistSize))
    && IsRequiredMessage(Some(msg.albumRequired)) && !IsRequiredMessage(Some(msg.albumSize))
    && IsRequiredMessage(Some(msg.yearRequired)) && !IsRequiredMessage(Some(msg.yearPattern))
    && IsRequiredMessage(Some(msg.durationRequired)) && !IsRequiredMessage(Some(msg.durationPattern))
  }

  lemma DtoMessagesClassified()
    ensures Classified(DtoMessages) && IsRequiredMessage(Some(IdRequired))
  {
    SaysIdRequired();
    SaysNameRequired();
    SaysArtistRequired();
    SaysAlbumRequired();
    SaysYearRequired();
    SaysDurationRequired();
    NameSizeNotRequired();
    ArtistSizeNotRequired();
    AlbumSizeNotRequired();
    YearPatternNotRequired();
    DurationPatternNotRequired();
  }

  /** The record's six field names are distinct. */
  lemma FieldNamesDistinct()
    ensures "name" !in {"id"} && "artist" !in {"id", "name"} && "album" !in {"id", "name", "artist"}
    ensures "year" !in {"id", "name", "artist", "album"}
    ensures "duration" !in {"id", "name", "artist", "album", "year"}
  {
  }

  /** One field's two checks never conflict: one message is "required", the
      other is not. */
  lemma ComponentOrderFree(field: string, a: bool, required: string, b: bool, other: string)
    requires IsRequiredMessage(Some(required)) && !IsRequiredMessage(Some(other))
    ensures OrderFree(Check(field, a, required) + Check(field, b, other))
    ensures FieldsWithin(Check(field, a, required) + Check(field, b, other), {field})
  {
  }

  /** With classified messages the errors of a record never tie. */
  lemma FieldErrorsOrderFree(msg: SongMetadata.Messages, d: SongDto)
    requires Classified(msg) && IsRequiredMessage(Some(IdRequired))
    ensures OrderFree(FieldErrorsWith(msg, d))
  {
    var id := Check("id", d.id.Some?, IdRequired);
    var name := TextErrors("name", d.name, msg.nameRequired, msg.nameSize);
    var artist := TextErrors("artist", d.artist, msg.artistRequired, msg.artistSize);
    var album := TextErrors("album", d.album, msg.albumRequired, msg.albumSize);
    var year := PatternErrors("year", d.year, d.year.None? || MatchesYear(d.year.value), msg.yearRequired, msg.yearPattern);
    var duration := PatternErrors("duration", d.duration, d.duration.None? || MatchesTwoDigitMinutes(d.duration.value),
                                  msg.durationRequired, msg.durationPattern);
    assert OrderFree(name) && FieldsWithin(name, {"name"}) by {
      ComponentOrderFree("name", NotBlank(d.name), msg.nameRequired, SizeAtMost(d.name, 100), msg.nameSize);
    }
    assert OrderFree(artist) && FieldsWithin(artist, {"artist"}) by {
      ComponentOrderFree("artist", NotBlank(d.artist), msg.artistRequired, SizeAtMost(d.artist, 100), msg.artistSize);
    }
    assert OrderFree(album) && FieldsWithin(album, {"album"}) by {
      ComponentOrderFree("album", NotBlank(d.album), msg.albumRequired, SizeAtMost(d.album, 100), msg.albumSize);
    }
    assert OrderFree(year) && FieldsWithin(year, {"year"}) by {
      ComponentOrderFree("year", NotBlank(d.year), msg.yearRequired, d.year.None? || MatchesYear(d.year.value), msg.yearPattern);
    }
    assert OrderFree(duration) && FieldsWithin(duration, {"duration"}) by {
      ComponentOrderFree("duration", NotBlank(d.duration), msg.durationRequired,
                         d.duration.None? || MatchesTwoDigitMinutes(d.duration.value), msg.durationPattern);
    }
    FieldNamesDistinct();
    SixFieldsOrderFree(id, "id", name, "name", artist, "artist", album, "album", year, "year", duration, "duration");
  }

  /** Six tie-free groups of distinct fields stay tie-free together. */
  lemma SixFieldsOrderFree(a: seq<FieldError>, fa: string, b: seq<FieldError>, fb: string, c: seq<FieldError>, fc: string,
                           d: seq<FieldError>, fd: string, e: seq<FieldError>, fe: string, f: seq<FieldError>, ff: string)
    requires OrderFree(a) && FieldsWithin(a, {fa}) && OrderFree(b) && FieldsWithin(b, {fb})
    requires OrderFree(c) && FieldsWithin(c, {fc}) && OrderFree(d) && FieldsWithin(d, {fd})
    requires OrderFree(e) && FieldsWithin(e, {fe}) && OrderFree(f) && FieldsWithin(f, {ff})
    requires fb !in {fa} && fc !in {fa, fb} && fd !in {fa, fb, fc}
    requires fe !in {fa, fb, fc, fd}
    requires ff !in {fa, fb, fc, fd, fe}
    ensures OrderFree(a + b + c + d + e + f)
  {
    AppendField(a, {fa}, b, fb);
    AppendField(a + b, {fa, fb}, c, fc);
    AppendField(a + b + c, {fa, fb, fc}, d, fd);
    AppendField(a + b + c + d, {fa, fb, fc, fd}, e, fe);
    AppendField(a + b + c + d + e, {fa, fb, fc, fd, fe}, f, ff);
  }

  /** The validation handler's details do not depend on the order in which
      the binding result lists the field errors; in particular a missing id
      is always reported as "ID is required", and every blank field as its
      "required" message. */
  lemma DetailsWhateverOrder(d: SongDto, p: seq<FieldError>)
    requires multiset(p) == multiset(FieldErrors(d))
    ensures MergeFieldErrors(p) == MergeFieldErrors(FieldErrors(d))
    ensures d.id.None? ==> "id" in MergeFieldErrors(p) && MergeFieldErrors(p)["id"] == Some(IdRequired)
    ensures forall e :: e in FieldErrors(d) && IsRequiredMessage(e.message)
              ==> e.field in MergeFieldErrors(p) && MergeFieldErrors(p)[e.field] == e.message
  {
    DtoMessagesClassified();
    FieldErrorsOrderFree(DtoMessages, d);
    MergePermutationInvariant(FieldErrors(d), p);
    forall e | e in FieldErrors(d) && IsRequiredMessage(e.message)
      ensures e.field in MergeFieldErrors(p) && MergeFieldErrors(p)[e.field] == e.message
    {
      MergeOfOrderFree(FieldErrors(d), e);
    }
  }
}
