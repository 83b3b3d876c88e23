/** `Mp3ResourceService`: upload, download and delete of MP3 resources. The
    resource table is a map from id to audio bytes; the MP3 parser's tags and
    the song service's answers are inputs. */
module Mp3ResourceService {
  import opened Wrappers
  import opened Numerals
  import opened Downstream
  import opened SongMetadata
  import opened ResourceErrors
  import opened ResourceIdParser
  import opened SongServiceClient
  import opened AudioMetadataExtractor
  import OutboxEvent

  /** `MAX_AUDIO_SIZE_BYTES`, 50 MiB. */
  const MaxAudioSize := 50 * 1024 * 1024
  const TooLargeMessage := "Audio file is too large. Max allowed size is 50 MB"
  const ValidationError := "Validation error"

  /** The `resource` table and the next value of its identity column. */
  datatype ResourceDb = ResourceDb(data: map<int, Bytes>, nextId: nat)

  /** Identity values start at 1 and are never reused: a value drawn by a
      transaction that rolls back is gone as well. */
  predicate WellFormed(db: ResourceDb) {
    db.nextId >= 1 && forall id :: id in db.data ==> 1 <= id < db.nextId
  }

  /** An upload's effect: the committed table, the response or exception, and
      the create request sent to the song service, if any. */
  datatype Upload = Upload(db: ResourceDb, response: Result<int, ResourceException>,
                           request: Option<seq<(string, OutboxEvent.Json)>>)

  /** `validateAudioSize`: only present audio over the limit is refused. */
  function CheckAudioSize(audio: Option<Bytes>): (r: Option<ResourceException>)
    ensures r.Some? <==> audio.Some? && |audio.value| > MaxAudioSize
    ensures r.Some? ==> r.value == InvalidMp3(TooLargeMessage)
  {
    if audio.Some? && |audio.value| > MaxAudioSize then Some(InvalidMp3(TooLargeMessage)) else None
  }

  /** Everything `store` checks before saving: the size gate, extraction,
      then `validateSongMetadata`, which reports every violation at once. */
  function Admit(audio: Option<Bytes>, tags: Option<Tags>): (r: Result<SongMetadataDto, ResourceException>)
    ensures CheckAudioSize(audio).Some? ==> r == Failure(InvalidMp3(TooLargeMessage))
    ensures CheckAudioSize(audio).None? && Extract(audio, tags).Failure? ==> r == Failure(Extract(audio, tags).error)
    ensures CheckAudioSize(audio).None? && Extract(audio, tags).Success? && !Valid(Extract(audio, tags).value) ==>
              r == Failure(InvalidSongMetadata(ValidationError, Violations(Extract(audio, tags).value)))
    ensures r.Success? <==> CheckAudioSize(audio).None? && Extract(audio, tags).Success? && Valid(Extract(audio, tags).value)
    ensures r.Success? ==> r.value == Extract(audio, tags).value && audio.Some?
  {
    if CheckAudioSize(audio).Some? then Failure(CheckAudioSize(audio).value)
    else match Extract(audio, tags)
      case Failure(e) => Failure(e)
      case Success(m) =>
        var vs := Violations(m);
        if |vs| > 0 then Failure(InvalidSongMetadata(ValidationError, vs)) else Success(m)
  }

  /** The second half of `store`: save the admitted upload under the next id
      and make the synchronous create call; a failed call rolls the save
      back, but the identity value the save drew stays used. */
  function SaveAndNotify(db: ResourceDb, audio: Bytes, m: SongMetadataDto, exchange: Outcome): (r: Upload)
    ensures r.request == Some(CreateBody(db.nextId, m))
    ensures r.response.Success? <==> exchange.Delivered?
    ensures r.response.Success? ==>
              r.response.value == db.nextId && r.db == ResourceDb(db.data[db.nextId := audio], db.nextId + 1)
    ensures r.response.Failure? ==>
              && r.db.data == db.data && r.db.nextId == db.nextId + 1
              && r.response.error == SongServiceFailure(CreateFailureMessage(db.nextId))
    ensures WellFormed(db) ==> WellFormed(r.db)
  {
    var id := db.nextId;
    match CreateSongMetadata(id, m, exchange)
    case Delivered => Upload(ResourceDb(db.data[id := audio], id + 1), Success(id), Some(CreateBody(id, m)))
    case Raised(_) =>
      Upload(ResourceDb(db.data, id + 1), Failure(SongServiceFailure(CreateFailureMessage(id))), Some(CreateBody(id, m)))
  }

  /** `store`, one transaction: admit the upload, then save it and notify the
      song service. Nothing is saved or sent for an upload that is not
      admitted; a failed call leaves the resources as they were, one identity
      value further on. */
  function Store(db: ResourceDb, audio: Option<Bytes>, tags: Option<Tags>, exchange: Outcome): (r: Upload)
    ensures Admit(audio, tags).Failure? ==> r == Upload(db, Failure(Admit(audio, tags).error), None)
    ensures r.request.Some? <==> Admit(audio, tags).Success?
    ensures r.request.Some? ==> r.request.value == CreateBody(db.nextId, Admit(audio, tags).value)
    ensures r.response.Success? <==> Admit(audio, tags).Success? && exchange.Delivered?
    ensures r.response.Success? ==>
              r.response.value == db.nextId && r.db == ResourceDb(db.data[db.nextId := audio.value], db.nextId + 1)
    ensures Admit(audio, tags).Success? && exchange.Raised? ==>
              && r.db == ResourceDb(db.data, db.nextId + 1)
              && r.response == Failure(SongServiceFailure(CreateFailureMessage(db.nextId)))
    ensures WellFormed(db) ==> WellFormed(r.db)
  {
    match Admit(audio, tags)
    case Failure(e) => Upload(db, Failure(e), None)
    case Success(m) => SaveAndNotify(db, audio.value, m, exchange)
  }

  /** A committed upload takes a fresh id. */
  lemma StoreTakesFreshId(db: ResourceDb, audio: Option<Bytes>, tags: Option<Tags>, exchange: Outcome)
    requires WellFormed(db) && Store(db, audio, tags, exchange).response.Success?
    ensures Store(db, audio, tags, exchange).response.value !in db.data
  {
  }

  /** A failed call still uses up its id: the next upload that commits gets
      the one after it. */
  lemma FailedUploadSkipsId(db: ResourceDb, audio: Option<Bytes>, tags: Option<Tags>, exchange: Outcome,
                            audio2: Option<Bytes>, tags2: Option<Tags>, exchange2: Outcome)
    requires Admit(audio, tags).Success? && exchange.Raised?
    requires Store(Store(db, audio, tags, exchange).db, audio2, tags2, exchange2).response.Success?
    ensures Store(Store(db, audio, tags, exchange).db, audio2, tags2, exchange2).response.value == db.nextId + 1
  {
  }

  function InvalidValueMessage(id: string): string {
    "Invalid value '" + id + "' for ID. Must be a positive integer"
  }

  function NotFoundMessage(id: string): string {
    "Resource with ID=" + id + " not found"
  }

  /** `getResource`: a malformed id is reported with the text as given; a
      well-formed one that is not stored is not found. */
  function GetResource(db: ResourceDb, id: string): (r: Result<Bytes, ResourceException>)
    ensures ParsePositiveId(id).Failure? ==> r == Failure(InvalidResourceId(InvalidValueMessage(id)))
    ensures ParsePositiveId(id).Success? && ParsePositiveId(id).value !in db.data ==>
              r == Failure(ResourceNotFound(NotFoundMessage(id)))
    ensures r.Success? <==> ParsePositiveId(id).Success? && ParsePositiveId(id).value in db.data
    ensures r.Success? ==> r.value == db.data[ParsePositiveId(id).value]
  {
    match ParsePositiveId(id)
    case Failure(_) => Failure(InvalidResourceId(InvalidValueMessage(id)))
    case Success(n) => if n in db.data then Success(db.data[n]) else Failure(ResourceNotFound(NotFoundMessage(id)))
  }

  /** An upload can be read back under its id. */
  lemma StoreThenGet(db: ResourceDb, audio: Option<Bytes>, tags: Option<Tags>, exchange: Outcome)
    requires WellFormed(db) && db.nextId <= LongMax
    requires Store(db, audio, tags, exchange).response.Success?
    ensures var r := Store(db, audio, tags, exchange);
            GetResource(r.db, Decimal(r.response.value)) == Success(audio.value)
  {
    var r := Store(db, audio, tags, exchange);
    assert r.response.value == db.nextId;
    assert r.db.data == db.data[db.nextId := audio.value];
    ParseDecimal(db.nextId);
  }

  /** A deletion's effect: the committed table, the response or exception, and
      the CSV delete request sent to the song service, if any. */
  datatype Removal = Removal(db: ResourceDb, response: Result<set<int>, ResourceException>, request: Option<string>)

  /** The ids `deleteAndReturnIds` removes: the requested ones that exist. */
  function Existing(db: ResourceDb, ids: set<int>): (r: set<int>)
    ensures r <= ids && r <= db.data.Keys
    ensures forall id :: id in ids && id in db.data ==> id in r
  {
    ids * db.data.Keys
  }

  /** The second half of `deleteResources`: delete the existing ids and send
      them, in `order`, to the song service; a failed call rolls the deletion
      back. */
  function DeleteAndNotify(db: ResourceDb, deleted: set<int>, order: seq<int>, exchange: Outcome): (r: Removal)
    requires |order| > 0 && Enumerates(order, deleted)
    ensures r.request == Some(IdCsv(order))
    ensures r.response.Success? <==> exchange.Delivered?
    ensures r.response.Success? ==>
              && r.response.value == deleted
              && r.db.data.Keys == db.data.Keys - deleted
              && (forall id :: id in r.db.data ==> r.db.data[id] == db.data[id])
              && r.db.nextId == db.nextId
    ensures r.response.Failure? ==>
              r.db == db && r.response.error == SongServiceFailure(DeleteFailureMessage(order))
  {
    var call := DeleteSongMetadataCsv(order, exchange);
    var after := ResourceDb(map id | id in db.data.Keys - deleted :: db.data[id], db.nextId);
    match call.outcome
    case Delivered => Removal(after, Success(deleted), call.request)
    case Raised(_) => Removal(db, Failure(SongServiceFailure(DeleteFailureMessage(order))), call.request)
  }

  /** `deleteResources`, one transaction: parse the CSV; with nothing parsed
      or nothing existing, answer empty without a call; otherwise delete and
      notify. */
  function DeleteResources(db: ResourceDb, csv: Option<string>, order: seq<int>, exchange: Outcome): (r: Removal)
    requires ParsePositiveIds(csv).Success? ==> Enumerates(order, Existing(db, ParsePositiveIds(csv).value))
    ensures r.response.Failure? ==> r.db == db
    ensures ParsePositiveIds(csv).Failure? ==> r == Removal(db, Failure(ParsePositiveIds(csv).error), None)
    ensures ParsePositiveIds(csv).Success? && Existing(db, ParsePositiveIds(csv).value) == {} ==>
              r == Removal(db, Success({}), None)
    ensures r.request.Some? <==> ParsePositiveIds(csv).Success? && Existing(db, ParsePositiveIds(csv).value) != {}
    ensures r.request.Some? ==> r.request.value == IdCsv(order)
    ensures r.request.Some? ==> (r.response.Success? <==> exchange.Delivered?)
    ensures r.request.Some? && exchange.Delivered? ==>
              && r.response == Success(Existing(db, ParsePositiveIds(csv).value))
              && r.db.data.Keys == db.data.Keys - ParsePositiveIds(csv).value
              && (forall id :: id in r.db.data ==> r.db.data[id] == db.data[id])
              && r.db.nextId == db.nextId
    ensures r.request.Some? && exchange.Raised? ==>
              r.response == Failure(SongServiceFailure(DeleteFailureMessage(order)))
  {
    match ParsePositiveIds(csv)
    case Failure(e) => Removal(db, Failure(e), None)
    case Success(ids) =>
      if ids == {} then Removal(db, Success({}), None)
      else
        var deleted := Existing(db, ids);
        if deleted == {} then Removal(db, Success({}), None)
        else
          assert order[0] in deleted;
          DeleteAndNotify(db, deleted, order, exchange)
  }

  /** Deleting the same ids again finds nothing, answers empty and sends no
      request. */
  lemma DeleteTwice(db: ResourceDb, csv: Option<string>, order: seq<int>, exchange: Outcome, exchange2: Outcome)
    requires ParsePositiveIds(csv).Success? ==> Enumerates(order, Existing(db, ParsePositiveIds(csv).value))
    requires DeleteResources(db, csv, order, exchange).response.Success?
    ensures var db2 := DeleteResources(db, csv, order, exchange).db;
            DeleteResources(db2, csv, [], exchange2) == Removal(db2, Success({}), None)
  {
    var db2 := DeleteResources(db, csv, order, exchange).db;
    assert Existing(db2, ParsePositiveIds(csv).value) == {};
  }
}
