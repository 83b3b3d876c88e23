/** `SongMetadataDto`: the metadata the resource service extracts from an MP3
    and forwards, with its bean-validation constraints. */
module SongMetadata {
  import opened Wrappers
  import opened BeanValidation
  import opened ApiErrors

  /** All five fields may be null before validation. */
  datatype SongMetadataDto = SongMetadataDto(name: Option<string>, artist: Option<string>, album: Option<string>,
                                             year: Option<string>, duration: Option<string>)

  predicate Valid(m: SongMetadataDto) {
    TextFieldOk(m.name) && TextFieldOk(m.artist) && TextFieldOk(m.album) && YearOk(m.year) && DurationOk(m.duration)
  }

  /** The violations of one NotBlank and Size(max 100) field. */
  function TextViolations(path: string, v: Option<string>, required: string, size: string): (vs: seq<Violation>)
    ensures |vs| == 0 <==> TextFieldOk(v)
    ensures forall x :: x in vs ==> x.path == path
    ensures !NotBlank(v) ==> Violation(path, required) in vs
  {
    (if NotBlank(v) then [] else [Violation(path, required)]) + (if SizeAtMost(v, 100) then [] else [Violation(path, size)])
  }

  /** The violations of a NotBlank and pattern field. */
  function PatternViolations(path: string, v: Option<string>, ok: bool, required: string, mismatch: string): (vs: seq<Violation>)
    ensures |vs| == 0 <==> NotBlank(v) && ok
    ensures forall x :: x in vs ==> x.path == path
    ensures !NotBlank(v) ==> Violation(path, required) in vs
  {
    (if NotBlank(v) then [] else [Violation(path, required)]) + (if ok then [] else [Violation(path, mismatch)])
  }

  const FieldNames := {"name", "artist", "album", "year", "duration"}

  /** The messages of a song record's ten constraints, field by field: the
      NotBlank one, then the Size or pattern one. */
  datatype Messages = Messages(nameRequired: string, nameSize: string, artistRequired: string, artistSize: string,
                               albumRequired: string, albumSize: string, yearRequired: string, yearPattern: string,
                               durationRequired: string, durationPattern: string)

  /** The messages `SongMetadataDto` declares. */
  const MetadataMessages := Messages(
    "Song name is required", "Name must be between 1 and 100 characters",
    "Artist name is required", "Artist must be between 1 and 100 characters",
    "Album name is required", "Album must be between 1 and 100 characters",
    "Year is required", "Year must be between 1900 and 2099",
    "Duration is required", "Duration must be in mm:ss format with leading zeros")

  /** One violation per failed constraint, keyed by the field name, with the
      constraint's message, field by field. */
  function ViolationsWith(msg: Messages, m: SongMetadataDto): (vs: seq<Violation>)
    ensures |vs| == 0 <==> Valid(m)
    ensures forall x :: x in vs ==> x.path in FieldNames
  {
    TextViolations("name", m.name, msg.nameRequired, msg.nameSize)
    + TextViolations("artist", m.artist, msg.artistRequired, msg.artistSize)
    + TextViolations("album", m.album, msg.albumRequired, msg.albumSize)
    + PatternViolations("year", m.year, m.year.None? || MatchesYear(m.year.value), msg.yearRequired, msg.yearPattern)
    + PatternViolations("duration", m.duration, m.duration.None? || MatchesTwoDigitMinutes(m.duration.value),
                        msg.durationRequired, msg.durationPattern)
  }

  /** `validator.validate(metadata)`. The validator returns a set; the model
      lists it field by field. */
  function Violations(m: SongMetadataDto): (vs: seq<Violation>)
    ensures |vs| == 0 <==> Valid(m)
    ensures forall x :: x in vs ==> x.path in FieldNames
  {
    ViolationsWith(MetadataMessages, m)
  }

  /** Some violation concerns the field `path`. */
  predicate Reports(vs: seq<Violation>, path: string) {
    exists x :: x in vs && x.path == path
  }

  lemma ReportsConcat(a: seq<Violation>, b: seq<Violation>, path: string)
    ensures Reports(a + b, path) <==> Reports(a, path) || Reports(b, path)
  {
    if Reports(a + b, path) {
      var x :| x in a + b && x.path == path;
      assert x in a || x in b;
    }
    if Reports(a, path) {
      var x :| x in a && x.path == path;
      assert x in a + b;
    }
    if Reports(b, path) {
      var x :| x in b && x.path == path;
      assert x in a + b;
    }
  }

  /** A field is reported exactly when it breaks one of its constraints. */
  lemma ViolationsByField(m: SongMetadataDto)
    ensures Reports(Violations(m), "name") <==> !TextFieldOk(m.name)
    ensures Reports(Violations(m), "artist") <==> !TextFieldOk(m.artist)
    ensures Reports(Violations(m), "album") <==> !TextFieldOk(m.album)
    ensures Reports(Violations(m), "year") <==> !YearOk(m.year)
    ensures Reports(Violations(m), "duration") <==> !DurationOk(m.duration)
  {
    ReportsOfGroups(MetadataMessages, m, "name");
    ReportsOfGroups(MetadataMessages, m, "artist");
    ReportsOfGroups(MetadataMessages, m, "album");
    ReportsOfGroups(MetadataMessages, m, "year");
    ReportsOfGroups(MetadataMessages, m, "duration");
  }

  /** Whatever the messages, a path is reported exactly when its field fails. */
  lemma ReportsOfGroups(msg: Messages, m: SongMetadataDto, p: string)
    ensures Reports(ViolationsWith(msg, m), p) <==>
      || (p == "name" && !TextFieldOk(m.name)) || (p == "artist" && !TextFieldOk(m.artist))
      || (p == "album" && !TextFieldOk(m.album)) || (p == "year" && !YearOk(m.year))
      || (p == "duration" && !DurationOk(m.duration))
  {
    var name := TextViolations("name", m.name, msg.nameRequired, msg.nameSize);
    var artist := TextViolations("artist", m.artist, msg.artistRequired, msg.artistSize);
    var album := TextViolations("album", m.album, msg.albumRequired, msg.albumSize);
    var year := PatternViolations("year", m.year, m.year.None? || MatchesYear(m.year.value), msg.yearRequired, msg.yearPattern);
    var duration := PatternViolations("duration", m.duration, m.duration.None? || MatchesTwoDigitMinutes(m.duration.value),
                                      msg.durationRequired, msg.durationPattern);
    assert ViolationsWith(msg, m) == name + artist + album + year + duration;
    ReportsOfFive(name, artist, album, year, duration, "name", "artist", "album", "year", "duration");
  }

  /** Five groups, each about one path: a path is reported exactly when its
      group is non-empty. */
  lemma ReportsOfFive(a: seq<Violation>, b: seq<Violation>, c: seq<Violation>, d: seq<Violation>, e: seq<Violation>,
                      pa: string, pb: string, pc: string, pd: string, pe: string)
    requires forall x :: x in a ==> x.path == pa
    requires forall x :: x in b ==> x.path == pb
    requires forall x :: x in c ==> x.path == pc
    requires forall x :: x in d ==> x.path == pd
    requires forall x :: x in e ==> x.path == pe
    ensures forall p :: Reports(a + b + c + d + e, p) <==>
      (p == pa && |a| > 0) || (p == pb && |b| > 0) || (p == pc && |c| > 0) || (p == pd && |d| > 0) || (p == pe && |e| > 0)
  {
    forall p
      ensures Reports(a + b + c + d + e, p) <==>
        (p == pa && |a| > 0) || (p == pb && |b| > 0) || (p == pc && |c| > 0) || (p == pd && |d| > 0) || (p == pe && |e| > 0)
    {
      ReportsConcat(a + b + c + d, e, p);
      ReportsConcat(a + b + c, d, p);
      ReportsConcat(a + b, c, p);
      ReportsConcat(a, b, p);
      GroupReports(a, pa, p);
      GroupReports(b, pb, p);
      GroupReports(c, pc, p);
      GroupReports(d, pd, p);
      GroupReports(e, pe, p);
    }
  }

  lemma GroupReports(vs: seq<Violation>, path: string, p: string)
    requires forall x :: x in vs ==> x.path == path
    ensures Reports(vs, p) <==> p == path && |vs| > 0
  {
    if |vs| > 0 {
      assert vs[0] in vs;
    }
  }
}
