/** `SongServiceClient`: the resource service's calls to the song service and
    how their failures surface. The HTTP exchange itself is an input. */
module SongServiceClient {
  import opened Wrappers
  import opened JavaText
  import opened Numerals
  import opened Downstream
  import opened SongMetadata
  import opened OutboxEvent
  import ResourceIdParser

  function JsonText(v: Option<string>): Json {
    if v.Some? then JString(v.value) else JNull
  }

  /** The metadata fields in declaration order; nulls are written out. */
  function MetadataFields(m: SongMetadataDto): seq<(string, Json)> {
    [("name", JsonText(m.name)), ("artist", JsonText(m.artist)), ("album", JsonText(m.album)),
     ("year", JsonText(m.year)), ("duration", JsonText(m.duration))]
  }

  /** `CreateMetadataRequest` with its metadata unwrapped as JSON members: the id
      first, then the metadata fields at top level, every name once. */
  function CreateBody(id: int, m: SongMetadataDto): (body: seq<(string, Json)>)
    ensures |body| == 6 && body[0] == ("id", JNumber(id))
    ensures forall i, j :: 0 <= i < j < |body| ==> body[i].0 != body[j].0
  {
    [("id", JNumber(id))] + MetadataFields(m)
  }

  /** `String.valueOf` of each id. */
  function IdTexts(ids: seq<int>): (r: seq<string>)
    ensures |r| == |ids| && forall i :: 0 <= i < |ids| ==> r[i] == JavaDecimal(ids[i])
  {
    seq(|ids|, i requires 0 <= i < |ids| => JavaDecimal(ids[i]))
  }

  /** `order` lists the set `ids` once each, in the set's iteration order,
      which Java leaves unspecified. */
  predicate Enumerates(order: seq<int>, ids: set<int>) {
    && (forall i :: 0 <= i < |order| ==> order[i] in ids)
    && (forall x :: x in ids ==> x in order)
    && (forall i, j :: 0 <= i < j < |order| ==> order[i] != order[j])
  }

  /** The `id` query parameter: the ids in iteration order joined by ",". */
  function IdCsv(order: seq<int>): string {
    Join(IdTexts(order), ",")
  }

  /** `Set.toString` of the ids in iteration order. */
  function SetText(order: seq<int>): string {
    "[" + Join(IdTexts(order), ", ") + "]"
  }

  lemma CommaFreeDecimal(n: int)
    ensures ',' !in JavaDecimal(n)
  {
    var s := JavaDecimal(n);
    forall i | 0 <= i < |s|
      ensures s[i] != ','
    {
      if n < 0 && i > 0 {
        assert s[i] == Decimal(-n)[i - 1];
      }
    }
  }

  /** The part of a call the model observes: the request it sent, if any, and
      whether it returned or threw. */
  datatype Call = Call(request: Option<string>, outcome: Outcome)

  function CreateFailureMessage(id: int): string {
    "Failed to create metadata for resource ID: " + JavaDecimal(id)
  }

  function DeleteFailureMessage(order: seq<int>): string {
    "Failed to delete song metadata for resource IDs: " + SetText(order)
  }

  /** The client's rethrow: a `SongServiceException` with the original failure
      as its cause. */
  function ServiceFailure(message: string, exchange: Outcome): (r: Outcome)
    ensures r.Delivered? <==> exchange.Delivered?
    ensures r.Raised? ==> r.thrown.top == Other("SongServiceException", Some(message))
    ensures r.Raised? ==> Chain(r.thrown)[1..] == Chain(exchange.thrown)
  {
    match exchange
    case Delivered => Delivered
    case Raised(th) => Raised(Wrap(Other("SongServiceException", Some(message)), th))
  }

  /** `createSongMetadata`: POST `/songs` with the create body. */
  function CreateSongMetadata(id: int, m: SongMetadataDto, exchange: Outcome): (r: Outcome)
    ensures r.Delivered? <==> exchange.Delivered?
    ensures r.Raised? ==> r.thrown.top == Other("SongServiceException", Some(CreateFailureMessage(id)))
    ensures r.Raised? ==> Chain(r.thrown)[1..] == Chain(exchange.thrown)
  {
    ServiceFailure(CreateFailureMessage(id), exchange)
  }

  /** `deleteSongMetadataCSV`, the set given in iteration order: an empty set
      sends nothing and returns; otherwise DELETE `/songs?id=<csv>`, whose
      failure is rethrown naming the ids. */
  function DeleteSongMetadataCsv(order: seq<int>, exchange: Outcome): (c: Call)
    ensures |order| == 0 <==> c.request.None?
    ensures |order| == 0 ==> c.outcome.Delivered?
    ensures c.request.Some? ==> Split(c.request.value) == IdTexts(order)
    ensures |order| > 0 ==> c.outcome == ServiceFailure(DeleteFailureMessage(order), exchange)
  {
    if |order| == 0 then Call(None, Delivered)
    else
      forall i | 0 <= i < |order| ensures ',' !in IdTexts(order)[i] {
        CommaFreeDecimal(order[i]);
      }
      SplitOfJoin(IdTexts(order));
      Call(Some(IdCsv(order)), ServiceFailure(DeleteFailureMessage(order), exchange))
  }

  /** Whatever the exchange threw, the exception that leaves the client is a
      `SongServiceException`, never a connection failure: a connection error
      can only appear further down the chain. */
  lemma NeverConnectionAtTop(message: string, exchange: Outcome)
    requires exchange.Raised?
    ensures !ServiceFailure(message, exchange).thrown.top.Connection?
    ensures !ServiceFailure(message, exchange).thrown.top.Http?
  {
  }

  lemma JoinHead(xs: seq<string>, sep: string)
    requires |xs| >= 1 && |xs[0]| >= 1
    ensures |Join(xs, sep)| >= 1 && Join(xs, sep)[0] == xs[0][0]
  {
  }

  /** Splitting the query parameter gives back the decimal ids. */
  lemma SplitOfIdCsv(order: seq<int>)
    requires |order| >= 1
    requires forall i :: 0 <= i < |order| ==> 1 <= order[i]
    ensures !IsBlank(IdCsv(order))
    ensures Split(IdCsv(order)) == IdTexts(order)
  {
    var texts := IdTexts(order);
    forall i | 0 <= i < |order| ensures ',' !in texts[i] {
      CommaFreeDecimal(order[i]);
    }
    SplitOfJoin(texts);
    JoinHead(texts, ",");
    assert !IsWhitespace(IdCsv(order)[0]);
  }

  /** Fields with nothing to trim survive the trim-and-drop-empty step. */
  lemma NonEmptyTrimmedOfSolid(texts: seq<string>)
    requires forall t :: t in texts ==> t != "" && forall i :: 0 <= i < |t| ==> !IsTrimmed(t[i])
    ensures forall t :: t in ResourceIdParser.NonEmptyTrimmed(texts) <==> t in texts
  {
    var tokens := ResourceIdParser.NonEmptyTrimmed(texts);
    var image := ResourceIdParser.TrimmedFields(texts);
    assert (set u | u in tokens) == image;
    forall t | t in tokens
      ensures t in texts
    {
      assert t in image;
      var x :| x in texts && Trim(x) != "" && Trim(x) == t;
      TrimOfSolid(x);
    }
    forall t | t in texts
      ensures t in tokens
    {
      TrimOfSolid(t);
      assert Trim(t) in image;
    }
  }

  /** The non-empty trimmed fields of the query parameter are exactly the
      decimal ids. */
  lemma TokensOfIdCsv(order: seq<int>)
    requires |order| >= 1
    requires forall i :: 0 <= i < |order| ==> 1 <= order[i]
    ensures !IsBlank(IdCsv(order))
    ensures forall t :: t in ResourceIdParser.NonEmptyTrimmed(Split(IdCsv(order))) <==> t in IdTexts(order)
  {
    SplitOfIdCsv(order);
    IdTextsAreSolid(order);
    NonEmptyTrimmedOfSolid(IdTexts(order));
  }

  /** The decimal form of a positive id is non-empty and has no character
      that `trim` would remove. */
  lemma IdTextsAreSolid(order: seq<int>)
    requires forall i :: 0 <= i < |order| ==> 1 <= order[i]
    ensures forall t :: t in IdTexts(order) ==> t != "" && forall i :: 0 <= i < |t| ==> !IsTrimmed(t[i])
  {
    var texts := IdTexts(order);
    forall t | t in texts
      ensures t != "" && forall i :: 0 <= i < |t| ==> !IsTrimmed(t[i])
    {
      var k :| 0 <= k < |texts| && texts[k] == t;
      assert t == Decimal(order[k]);
    }
  }

  /** Parsing the decimal forms of positive `long` ids, in any order and with
      any repetition, gives the set of the ids. */
  lemma ParseAllOfDecimals(order: seq<int>, tokens: seq<string>)
    requires forall i :: 0 <= i < |order| ==> 1 <= order[i] <= LongMax
    requires forall t :: t in tokens <==> t in IdTexts(order)
    ensures ResourceIdParser.ParseAll(tokens) == Success(set x | x in order)
  {
    var texts := IdTexts(order);
    forall t | t in tokens
      ensures ResourceIdParser.ParsePositiveId(t).Success?
    {
      var i :| 0 <= i < |texts| && texts[i] == t;
      ResourceIdParser.ParseDecimal(order[i]);
    }
    var r := ResourceIdParser.ParseAll(tokens);
    forall x | x in order
      ensures x in r.value
    {
      var i :| 0 <= i < |order| && order[i] == x;
      assert texts[i] in tokens;
      ResourceIdParser.ParseDecimal(x);
    }
    forall y | y in r.value
      ensures y in order
    {
      var t :| t in tokens && ResourceIdParser.ParsePositiveId(t).Success? && ResourceIdParser.ParsePositiveId(t).value == y;
      var i :| 0 <= i < |texts| && texts[i] == t;
      ResourceIdParser.ParseDecimal(order[i]);
    }
    assert r.value == set x | x in order;
  }

  /** The query parameter the client builds for a non-empty set of positive
      ids parses back, with the resource service's own parser, to that set
      whenever it fits the 200-character limit. */
  lemma IdCsvRoundTrip(order: seq<int>)
    requires |order| >= 1
    requires forall i :: 0 <= i < |order| ==> 1 <= order[i] <= LongMax
    requires |IdCsv(order)| <= ResourceIdParser.MaxCsvLength
    ensures ResourceIdParser.ParsePositiveIds(Some(IdCsv(order))) == Success(set x | x in order)
  {
    TokensOfIdCsv(order);
    ParseAllOfDecimals(order, ResourceIdParser.NonEmptyTrimmed(Split(IdCsv(order))));
  }
}
