/** `ResourceIdUtil`: the legacy id parser with list semantics, used by the
    legacy file service. */
module ResourceIdUtil {
  import opened Wrappers
  import opened JavaText
  import opened Numerals
  import opened ResourceErrors
  import ResourceIdParser
  import SongServiceClient

  const NotPositiveMessage := "Resource ID must be a positive whole number (no letters, decimals, zero, or negative values)."
  const MissingIdsMessage := "At least one resource ID must be provided."
  const TooLongMessage := "ID CSV must be less than 200 characters."

  /** `NumberFormatException.forInputString`. */
  function ForInputString(s: string): string {
    "For input string: \"" + s + "\""
  }

  /** `parsePositiveId`: null or a mismatch of `^[1-9][0-9]*$` is an invalid id;
      a matching token beyond the `long` range escapes from `Long.parseLong` as
      a `NumberFormatException`. */
  function ParsePositiveId(id: Option<string>): (r: Result<int, ResourceException>)
    ensures r.Success? <==> id.Some? && ResourceIdParser.MatchesPositiveId(id.value) && Value(id.value) <= LongMax
    ensures r.Success? ==> 1 <= r.value <= LongMax && Decimal(r.value) == id.value
    ensures (id.None? || !ResourceIdParser.MatchesPositiveId(id.value)) ==> r == Failure(InvalidResourceId(NotPositiveMessage))
    ensures (id.Some? && ResourceIdParser.MatchesPositiveId(id.value) && Value(id.value) > LongMax)
            ==> r == Failure(NumberFormat(ForInputString(id.value)))
  {
    if id.None? || !ResourceIdParser.MatchesPositiveId(id.value) then Failure(InvalidResourceId(NotPositiveMessage))
    else if Value(id.value) > LongMax then Failure(NumberFormat(ForInputString(id.value)))
    else
      LeadingDigitBoundsValue(id.value);
      DecimalOfValue(id.value);
      Success(Value(id.value))
  }

  /** `e` is the error of the first token that does not parse. */
  predicate FirstFailure(tokens: seq<string>, e: ResourceException) {
    exists i :: 0 <= i < |tokens| && ParsePositiveId(Some(tokens[i])) == Failure(e) &&
      forall j :: 0 <= j < i ==> ParsePositiveId(Some(tokens[j])).Success?
  }

  /** Parses every token in order, keeping duplicates; the first bad one raises. */
  function ParseList(tokens: seq<string>): (r: Result<seq<int>, ResourceException>)
    ensures r.Success? <==> forall i :: 0 <= i < |tokens| ==> ParsePositiveId(Some(tokens[i])).Success?
    ensures r.Success? ==> |r.value| == |tokens|
    ensures r.Success? ==> forall i :: 0 <= i < |tokens| ==> 1 <= r.value[i] <= LongMax && Decimal(r.value[i]) == tokens[i]
    ensures r.Failure? ==> FirstFailure(tokens, r.error)
  {
    if |tokens| == 0 then Success([])
    else
      var head := ParsePositiveId(Some(tokens[0]));
      if head.Failure? then Failure(head.error)
      else
        var rest := ParseList(tokens[1..]);
        if rest.Failure? then
          var i :| 0 <= i < |tokens[1..]| && ParsePositiveId(Some(tokens[1..][i])) == Failure(rest.error) &&
                   forall j :: 0 <= j < i ==> ParsePositiveId(Some(tokens[1..][j])).Success?;
          assert ParsePositiveId(Some(tokens[i + 1])) == Failure(rest.error);
          assert forall j :: 0 <= j < i + 1 ==> ParsePositiveId(Some(tokens[j])).Success? by {
            forall j | 0 <= j < i + 1 ensures ParsePositiveId(Some(tokens[j])).Success? {
              if j > 0 { assert tokens[j] == tokens[1..][j - 1]; }
            }
          }
          Failure(rest.error)
        else Success([head.value] + rest.value)
  }

  function TrimAll(xs: seq<string>): (r: seq<string>)
    ensures |r| == |xs| && forall i :: 0 <= i < |xs| ==> r[i] == Trim(xs[i])
  {
    seq(|xs|, i requires 0 <= i < |xs| => Trim(xs[i]))
  }

  /** `parsePositiveIds`: null, blank and over-long input are invalid; every
      field of `split(",")`, trimmed, must be a positive id, and the first
      field that is not raises. The result keeps input order and duplicates,
      one id per field. */
  function ParsePositiveIds(ids: Option<string>): (r: Result<seq<int>, ResourceException>)
    ensures (ids.None? || IsBlank(ids.value)) ==> r == Failure(InvalidResourceId(MissingIdsMessage))
    ensures ids.Some? && !IsBlank(ids.value) && |ids.value| > 200 ==> r == Failure(InvalidResourceId(TooLongMessage))
    ensures r.Success? ==> ids.Some? && |r.value| == |Split(ids.value)|
    ensures r.Success? ==> forall i :: 0 <= i < |r.value| ==>
              1 <= r.value[i] <= LongMax && Decimal(r.value[i]) == Trim(Split(ids.value)[i])
    ensures ids.Some? && !IsBlank(ids.value) && |ids.value| <= 200 ==>
              (r.Success? <==> forall i :: 0 <= i < |Split(ids.value)| ==> ParsePositiveId(Some(Trim(Split(ids.value)[i]))).Success?)
    ensures ids.Some? && !IsBlank(ids.value) && |ids.value| <= 200 && r.Failure? ==>
              FirstFailure(TrimAll(Split(ids.value)), r.error)
  {
    if ids.None? || IsBlank(ids.value) then Failure(InvalidResourceId(MissingIdsMessage))
    else if |ids.value| > 200 then Failure(InvalidResourceId(TooLongMessage))
    else
      ParseList(TrimAll(Split(ids.value)))
  }

  /** An empty field before the last one is an error: a leading comma, or two
      commas in a row. */
  lemma EmptyFieldRejected(s: string, k: int)
    requires ',' in s && 0 <= k < |DropTrailingEmpty(Fields(s))| && Trim(DropTrailingEmpty(Fields(s))[k]) == ""
    requires !IsBlank(s) && |s| <= 200
    ensures ParsePositiveIds(Some(s)).Failure?
  {
    var xs := TrimAll(Split(s));
    assert xs[k] == "";
    assert ParsePositiveId(Some(xs[k])).Failure?;
  }

  lemma SplitOneTwo()
    ensures Split("1,2,") == ["1", "2"]
  {
    var s := "1,2,";
    assert IndexOf(s, ',') == 1;
    assert IndexOf(s[2..], ',') == 1;
    assert IndexOf(s[4..], ',') == 0;
    assert Fields(s[4..]) == [""];
    assert s[2..][..1] == "2" && s[2..][2..] == s[4..];
    assert Fields(s[2..]) == ["2"] + [""];
    assert s[..1] == "1";
    assert Fields(s) == ["1", "2", ""];
    assert DropTrailingEmpty(["1", "2", ""]) == ["1", "2"];
  }

  /** The decimal form of a positive `long` parses back to it. */
  lemma ParseDecimalId(v: int)
    requires 1 <= v <= LongMax
    ensures ParsePositiveId(Some(Decimal(v))) == Success(v)
  {
    DecimalIsCanonical(v);
    ValueOfDecimal(v);
  }

  /** Printing positive `long` values and parsing the tokens gives the values
      back, in order. */
  lemma {:induction false} ParseListOfDecimals(vs: seq<int>, tokens: seq<string>)
    requires |tokens| == |vs|
    requires forall i :: 0 <= i < |vs| ==> 1 <= vs[i] <= LongMax && tokens[i] == Decimal(vs[i])
    ensures ParseList(tokens) == Success(vs)
  {
    if |vs| > 0 {
      ParseDecimalId(vs[0]);
      ParseListOfDecimals(vs[1..], tokens[1..]);
      assert vs == [vs[0]] + vs[1..];
    }
  }

  /** The trimmed decimal forms of positive `long` values parse back to the
      values, in order. */
  lemma ParseFieldsOfDecimals(vs: seq<int>)
    requires forall i :: 0 <= i < |vs| ==> 1 <= vs[i] <= LongMax
    ensures ParseList(TrimAll(SongServiceClient.IdTexts(vs))) == Success(vs)
  {
    var texts := SongServiceClient.IdTexts(vs);
    SongServiceClient.IdTextsAreSolid(vs);
    forall i | 0 <= i < |vs|
      ensures TrimAll(texts)[i] == Decimal(vs[i])
    {
      assert texts[i] in texts;
      TrimOfSolid(texts[i]);
    }
    ParseListOfDecimals(vs, TrimAll(texts));
  }

  /** The comma-joined decimal ids the song-service client sends parse back,
      with this parser, to the same ids in the same order, whenever the text
      fits the 200-character limit. */
  lemma CsvRoundTrip(vs: seq<int>)
    requires |vs| >= 1 && forall i :: 0 <= i < |vs| ==> 1 <= vs[i] <= LongMax
    requires |SongServiceClient.IdCsv(vs)| <= 200
    ensures ParsePositiveIds(Some(SongServiceClient.IdCsv(vs))) == Success(vs)
  {
    SongServiceClient.SplitOfIdCsv(vs);
    ParseFieldsOfDecimals(vs);
  }

  /** Trailing commas vanish in the split: "1,2," is [1, 2]. */
  lemma TrailingCommaIgnored()
    ensures ParsePositiveIds(Some("1,2,")) == Success([1, 2])
  {
    var s := "1,2,";
    assert !IsBlank(s) by { assert !IsWhitespace(s[0]); }
    SplitOneTwo();
    assert SongServiceClient.IdTexts([1, 2]) == ["1", "2"];
    ParseFieldsOfDecimals([1, 2]);
  }

  /** A trailing field of blanks is not dropped by the split, so it fails after
      trimming: "1, " is an error. */
  lemma TrailingBlankFieldRejected()
    ensures ParsePositiveIds(Some("1, ")).Failure?
  {
    var s := "1, ";
    assert IndexOf(s, ',') == 1;
    assert IndexOf(s[2..], ',') == 1;
    assert s[..1] == "1" && s[2..] == " ";
    assert Fields(s) == ["1", " "];
    assert Trim(" ") == "";
    EmptyFieldRejected(s, 1);
  }

  lemma SplitOne()
    ensures Split("1,") == ["1"]
  {
    var t := "1,";
    assert IndexOf(t, ',') == 1;
    assert IndexOf(t[2..], ',') == 0;
    assert t[..1] == "1";
    assert Fields(t) == ["1", ""];
    assert DropTrailingEmpty(["1", ""]) == ["1"];
  }

  /** ... while "1," is the single id 1. */
  lemma SingleTrailingCommaIgnored()
    ensures ParsePositiveIds(Some("1,")) == Success([1])
  {
    var t := "1,";
    assert !IsBlank(t) by { assert !IsWhitespace(t[0]); }
    SplitOne();
    assert SongServiceClient.IdTexts([1]) == ["1"];
    ParseFieldsOfDecimals([1]);
  }
}
