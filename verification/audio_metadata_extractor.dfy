/** `AudioMetadataExtractor`: the guard on the input and the text it makes of
    the MP3 tags. The MP3 parser is an input: the tags it read, or nothing
    when it failed. */
module AudioMetadataExtractor {
  import opened Wrappers
  import opened Numerals
  import opened BeanValidation
  import opened SongMetadata
  import opened ResourceErrors

  type Bytes = seq<bv8>

  /** The `xmpDM:duration` tag as the extractor reads it: absent, not a
      number, or a number of seconds already cast to a whole `int`. */
  datatype DurationTag = Missing | Unparseable | Seconds(total: int)

  /** The tags the MP3 parser reports. */
  datatype Tags = Tags(title: Option<string>, artist: Option<string>, album: Option<string>,
                       releaseDate: Option<string>, duration: DurationTag)

  const AudioRequired := "MP3 audio data is required"
  const CorruptAudio := "Invalid MP3 file format or corrupted file"
  const ZeroDuration := "00:00"

  /** Java's `/` on `int`: the quotient truncated toward zero. */
  function JavaDiv(a: int, b: int): (q: int)
    requires b > 0
    ensures a >= 0 ==> q == a / b
    ensures a < 0 ==> q == -((-a) / b)
  {
    if a >= 0 then a / b else -((-a) / b)
  }

  /** The minutes and seconds of a whole number of seconds under Java's `/`
      and `%`: they recompose the total, and the seconds carry its sign and
      stay below a minute in magnitude. */
  function MinutesAndSeconds(t: int): (r: (int, int))
    ensures r.0 * 60 + r.1 == t
    ensures t >= 0 ==> 0 <= r.0 && 0 <= r.1 < 60
    ensures t < 0 ==> r.0 <= 0 && -60 < r.1 <= 0
  {
    var m := JavaDiv(t, 60);
    (m, t - 60 * m)
  }

  /** `String.format("%02d", n)`: the decimal digits of `n`, zero-padded on
      the left to two characters; a negative number prints its sign and
      digits, which already fill the width. */
  function Pad2(n: int): (r: string)
    ensures |r| >= 2
    ensures n >= 0 ==> AllDigits(r) && Value(r) == n
    ensures 0 <= n < 100 ==> |r| == 2
    ensures n >= 10 ==> r[0] != '0'
    ensures n < 0 ==> r[0] == '-' && AllDigits(r[1..]) && Value(r[1..]) == -n && r[1] != '0'
  {
    if 0 <= n < 10 then
      ValueOfDecimal(n);
      assert Value("0" + Decimal(n)) == n by {
        assert ("0" + Decimal(n))[..1] == "0";
      }
      "0" + Decimal(n)
    else if n < 0 then
      ValueOfDecimal(-n);
      assert ("-" + Decimal(-n))[1..] == Decimal(-n);
      "-" + Decimal(-n)
    else
      ValueOfDecimal(n);
      Decimal(n)
  }

  /** `convertSecondsToMMSS`: "00:00" for a missing or unparseable duration,
      otherwise minutes and seconds, each `%02d`; the minutes are not
      capped. For a non-negative total the text is the minutes' digits, a
      colon, and two digits of seconds. */
  function DurationText(d: DurationTag): (r: string)
    ensures !d.Seconds? ==> r == ZeroDuration
    ensures d.Seconds? && d.total >= 0 ==>
              var k := |r| - 3;
              && k >= 2 && r[k] == ':'
              && AllDigits(r[..k]) && Value(r[..k]) == d.total / 60
              && AllDigits(r[k + 1..]) && Value(r[k + 1..]) == d.total % 60
    ensures d.Seconds? ==> |r| >= 5
    ensures d.Seconds? && d.total < 0 ==> r[0] == '-' || r[3] == '-'
  {
    match d
    case Seconds(t) =>
      var (m, s) := MinutesAndSeconds(t);
      var r := Pad2(m) + ":" + Pad2(s);
      assert r[..|Pad2(m)|] == Pad2(m) && r[|Pad2(m)| + 1..] == Pad2(s);
      r
    case _ => ZeroDuration
  }

  /** `parseYear`: the first four characters of the release date, none when
      it is absent or shorter. */
  function ParseYear(releaseDate: Option<string>): (r: Option<string>)
    ensures r.Some? <==> releaseDate.Some? && |releaseDate.value| >= 4
    ensures r.Some? ==> |r.value| == 4 && r.value == releaseDate.value[..4]
  {
    if releaseDate.None? || |releaseDate.value| < 4 then None else Some(releaseDate.value[..4])
  }

  /** `extract`: null or empty audio is refused before parsing; a parser
      failure becomes "Invalid MP3 file format or corrupted file". */
  function Extract(audio: Option<Bytes>, tags: Option<Tags>): (r: Result<SongMetadataDto, ResourceException>)
    ensures (audio.None? || |audio.value| == 0) ==> r == Failure(InvalidMp3(AudioRequired))
    ensures audio.Some? && |audio.value| > 0 && tags.None? ==> r == Failure(InvalidMp3(CorruptAudio))
    ensures r.Success? <==> audio.Some? && |audio.value| > 0 && tags.Some?
    ensures r.Success? ==> r.value.name == tags.value.title && r.value.artist == tags.value.artist
                           && r.value.album == tags.value.album
    ensures r.Success? ==> r.value.year == ParseYear(tags.value.releaseDate)
                           && r.value.duration == Some(DurationText(tags.value.duration))
  {
    if audio.None? || |audio.value| == 0 then Failure(InvalidMp3(AudioRequired))
    else if tags.None? then Failure(InvalidMp3(CorruptAudio))
    else
      var t := tags.value;
      Success(SongMetadataDto(t.title, t.artist, t.album, ParseYear(t.releaseDate), Some(DurationText(t.duration))))
  }

  /** The extracted year passes the DTO's year constraints exactly when the
      release date starts with four digits reading 1900 to 2099: a shorter or
      absent date gives no year, and NotBlank refuses it. */
  lemma ExtractedYearValid(releaseDate: Option<string>)
    ensures YearOk(ParseYear(releaseDate)) <==>
              && releaseDate.Some? && |releaseDate.value| >= 4
              && AllDigits(releaseDate.value[..4]) && 1900 <= Value(releaseDate.value[..4]) <= 2099
  {
    if releaseDate.Some? && |releaseDate.value| >= 4 {
      var y := releaseDate.value[..4];
      YearPatternIsRange(y);
      if MatchesYear(y) {
        PatternValuesAreNotBlank(y);
      }
    }
  }

  /** Under 100 minutes the text has the DTO's `mm:ss` shape and reads back
      as the same number of seconds. */
  lemma ShortDurationRoundTrip(t: int)
    requires 0 <= t < 6000
    ensures var r := DurationText(Seconds(t));
            && MatchesTwoDigitMinutes(r)
            && Value(r[..2]) * 60 + Value(r[3..]) == t
  {
    var (m, s) := MinutesAndSeconds(t);
    var r := DurationText(Seconds(t));
    assert r[..2] == Pad2(m) && r[3..] == Pad2(s);
    var p := Pad2(s);
    assert Value(p) == s;
    assert Value(p[..1]) == DigitValue(p[0]) by { assert p[..1][..0] == ""; }
    assert Value(p) == DigitValue(p[0]) * 10 + DigitValue(p[1]);
  }

  /** From 100 minutes on, the minutes take three digits or more and the text
      no longer has the DTO's shape. */
  lemma LongDurationBreaksPattern(t: int)
    requires t >= 6000
    ensures !MatchesTwoDigitMinutes(DurationText(Seconds(t)))
    ensures |DurationText(Seconds(t))| >= 6
  {
  }

  /** A negative duration puts a minus sign in the text, so it does not match
      either. */
  lemma NegativeDurationBreaksPattern(t: int)
    requires t < 0
    ensures !MatchesTwoDigitMinutes(DurationText(Seconds(t)))
  {
    var (m, s) := MinutesAndSeconds(t);
    var r := DurationText(Seconds(t));
    if m < 0 {
      assert r[0] == '-';
    } else {
      assert s < 0;
      assert r[..2] == "00";
      assert r[3] == '-';
    }
  }

  /** The extracted duration passes the duration pattern `^\d{2}:[0-5]\d$` exactly
      when the tag is missing, unparseable, or a total below 6000 seconds. */
  lemma ExtractedDurationValid(d: DurationTag)
    ensures MatchesTwoDigitMinutes(DurationText(d)) <==> !d.Seconds? || 0 <= d.total < 6000
  {
    match d
    case Seconds(t) =>
      if 0 <= t < 6000 { ShortDurationRoundTrip(t); }
      else if t >= 6000 { LongDurationBreaksPattern(t); }
      else { NegativeDurationBreaksPattern(t); }
    case _ =>
  }
}
