/** `Mp3ResourceFileService`: the legacy upload, lookup and delete over the
    `resource_files` table. The multipart file's parts, the metadata
    extractor's success and the legacy client's failure are inputs. */
module Mp3ResourceFileService {
  import opened Wrappers
  import opened JavaText
  import opened Numerals
  import opened ResourceErrors
  import ResourceIdUtil
  import SongServiceClient
  import AudioMetadataExtractor

  type Bytes = AudioMetadataExtractor.Bytes

  /** `SUPPORTED_MP3_TYPES`, compared exactly. */
  const SupportedTypes: set<string> :=
    {"audio/mpeg", "audio/mp3", "audio/x-mpeg", "audio/x-mp3", "audio/x-mpeg-3", "audio/mpeg3"}

  const WrongTypeMessage := "Only MP3 files (audio/mpeg) are allowed."
  const WrongExtensionMessage := "File extension must be .mp3"
  const UnreadableMessage := "Failed to read file bytes"
  const UploadFailedMessage := "File upload failed"

  /** One row of `resource_files`. */
  datatype StoredFile = StoredFile(data: Bytes, filename: string, contentType: string, uploadTime: int)

  /** The table and the next value of its identity column. */
  datatype FileDb = FileDb(files: map<int, StoredFile>, nextId: nat)

  /** `ResourceFileResponse`. */
  datatype FileResponse = FileResponse(id: int, filename: string, contentType: string)

  datatype FileUpload = FileUpload(db: FileDb, response: Result<FileResponse, ResourceException>)

  /** The two checks `store` makes before touching the table, content type
      first. */
  function CheckFile(contentType: Option<string>, filename: Option<string>): (r: Option<ResourceException>)
    ensures (contentType.None? || contentType.value !in SupportedTypes) ==> r == Some(InvalidFileType(WrongTypeMessage))
    ensures contentType.Some? && contentType.value in SupportedTypes ==>
              (r.None? <==> filename.Some? && EndsWith(ToLower(filename.value), ".mp3"))
    ensures contentType.Some? && contentType.value in SupportedTypes && r.Some? ==>
              r.value == InvalidFileType(WrongExtensionMessage)
  {
    if contentType.None? || contentType.value !in SupportedTypes then Some(InvalidFileType(WrongTypeMessage))
    else if filename.None? || !EndsWith(ToLower(filename.value), ".mp3") then Some(InvalidFileType(WrongExtensionMessage))
    else None
  }

  /** `store`: check the file; then, in one transaction, read its bytes,
      save, extract the metadata and send it. `extractedAndSent` says whether
      both the extraction and the legacy client's `sendMetadata` returned. An
      unreadable file and any later failure are rethrown as
      `RuntimeException`, and the save is rolled back; a failure after the
      save leaves its identity value used. */
  function Store(db: FileDb, contentType: Option<string>, filename: Option<string>, bytes: Option<Bytes>,
                 extractedAndSent: bool, now: int): (r: FileUpload)
    ensures r.response.Failure? ==> r.db.files == db.files
    ensures CheckFile(contentType, filename).Some? ==> r == FileUpload(db, Failure(CheckFile(contentType, filename).value))
    ensures CheckFile(contentType, filename).None? && bytes.None? ==>
              r == FileUpload(db, Failure(Runtime(UnreadableMessage)))
    ensures CheckFile(contentType, filename).None? && bytes.Some? && !extractedAndSent ==>
              r == FileUpload(FileDb(db.files, db.nextId + 1), Failure(Runtime(UploadFailedMessage)))
    ensures r.response.Success? <==> CheckFile(contentType, filename).None? && bytes.Some? && extractedAndSent
    ensures r.response.Success? ==>
              && r.response.value == FileResponse(db.nextId, filename.value, contentType.value)
              && r.db == FileDb(db.files[db.nextId := StoredFile(bytes.value, filename.value, contentType.value, now)], db.nextId + 1)
  {
    match CheckFile(contentType, filename)
    case Some(e) => FileUpload(db, Failure(e))
    case None =>
      if bytes.None? then FileUpload(db, Failure(Runtime(UnreadableMessage)))
      else if !extractedAndSent then FileUpload(FileDb(db.files, db.nextId + 1), Failure(Runtime(UploadFailedMessage)))
      else
        var id := db.nextId;
        var row := StoredFile(bytes.value, filename.value, contentType.value, now);
        FileUpload(FileDb(db.files[id := row], id + 1), Success(FileResponse(id, filename.value, contentType.value)))
  }

  /** The extension test ignores case: an upper-case ".MP3" is accepted. */
  lemma UpperCaseExtensionAccepted()
    ensures CheckFile(Some("audio/mpeg"), Some("SONG.MP3")).None?
  {
    var lower := ToLower("SONG.MP3");
    assert lower[4..] == ".mp3";
  }

  /** The content type is checked first: a wrong type is reported even when
      the name is wrong as well. */
  lemma TypeCheckedBeforeName(filename: Option<string>)
    ensures CheckFile(Some("text/plain"), filename) == Some(InvalidFileType(WrongTypeMessage))
  {
  }

  function NotFoundMessage(id: string): string {
    "Resource not found: " + id
  }

  /** `findById`: the legacy parser's exceptions pass through; a missing row
      is a `NoSuchElementException`. */
  function FindById(db: FileDb, id: string): (r: Result<StoredFile, ResourceException>)
    ensures ResourceIdUtil.ParsePositiveId(Some(id)).Failure? ==> r == Failure(ResourceIdUtil.ParsePositiveId(Some(id)).error)
    ensures r.Success? <==> ResourceIdUtil.ParsePositiveId(Some(id)).Success? && ResourceIdUtil.ParsePositiveId(Some(id)).value in db.files
    ensures r.Success? ==> r.value == db.files[ResourceIdUtil.ParsePositiveId(Some(id)).value]
    ensures ResourceIdUtil.ParsePositiveId(Some(id)).Success? && r.Failure? ==> r.error == NoSuchElement(NotFoundMessage(id))
  {
    match ResourceIdUtil.ParsePositiveId(Some(id))
    case Failure(e) => Failure(e)
    case Success(n) => if n in db.files then Success(db.files[n]) else Failure(NoSuchElement(NotFoundMessage(id)))
  }

  /** A stored file is found under the decimal form of its id. */
  lemma StoreThenFind(db: FileDb, contentType: Option<string>, filename: Option<string>, bytes: Option<Bytes>,
                      extractedAndSent: bool, now: int)
    requires 1 <= db.nextId <= LongMax
    requires Store(db, contentType, filename, bytes, extractedAndSent, now).response.Success?
    ensures var r := Store(db, contentType, filename, bytes, extractedAndSent, now);
            FindById(r.db, Decimal(r.response.value.id)) == Success(StoredFile(bytes.value, filename.value, contentType.value, now))
  {
    ResourceIdUtil.ParseDecimalId(db.nextId);
  }

  /** The requested ids that have a row: what `findExistingIds` returns, each
      once. */
  function Existing(db: FileDb, ids: seq<int>): (r: set<int>)
    ensures forall x :: x in r <==> x in ids && x in db.files
  {
    (set x | x in ids) * db.files.Keys
  }

  datatype FileRemoval = FileRemoval(db: FileDb, response: Result<seq<int>, ResourceException>, request: Option<seq<int>>)

  /** `deleteResources`: parse the CSV as a list; delete the ids that exist
      and send them to the legacy client, unless there are none. The
      database's order of the existing ids is the input `order`. A client
      failure escapes and rolls the deletion back. */
  function DeleteResources(db: FileDb, csv: Option<string>, order: seq<int>,
                           clientError: Option<ResourceException>): (r: FileRemoval)
    requires ResourceIdUtil.ParsePositiveIds(csv).Success? ==>
               SongServiceClient.Enumerates(order, Existing(db, ResourceIdUtil.ParsePositiveIds(csv).value))
    ensures r.response.Failure? ==> r.db == db
    ensures ResourceIdUtil.ParsePositiveIds(csv).Failure? ==>
              r == FileRemoval(db, Failure(ResourceIdUtil.ParsePositiveIds(csv).error), None)
    ensures r.request.Some? <==> ResourceIdUtil.ParsePositiveIds(csv).Success? && |order| > 0
    ensures ResourceIdUtil.ParsePositiveIds(csv).Success? && |order| == 0 ==> r == FileRemoval(db, Success([]), None)
    ensures r.request.Some? ==> r.request.value == order
    ensures r.request.Some? && clientError.None? ==>
              && r.response == Success(order)
              && r.db.files.Keys == db.files.Keys - Existing(db, ResourceIdUtil.ParsePositiveIds(csv).value)
              && (forall id :: id in r.db.files ==> r.db.files[id] == db.files[id])
              && r.db.nextId == db.nextId
    ensures r.request.Some? && clientError.Some? ==> r.response == Failure(clientError.value)
  {
    match ResourceIdUtil.ParsePositiveIds(csv)
    case Failure(e) => FileRemoval(db, Failure(e), None)
    case Success(ids) =>
      if |order| == 0 then FileRemoval(db, Success([]), None)
      else
        var gone := Existing(db, ids);
        if clientError.Some? then FileRemoval(db, Failure(clientError.value), Some(order))
        else
          var after := FileDb(map id | id in db.files.Keys - gone :: db.files[id], db.nextId);
          FileRemoval(after, Success(order), Some(order))
  }

  /** The response lists exactly the requested ids that existed, each once,
      whatever duplicates the CSV held. */
  lemma DeletedAreRequestedAndExisting(db: FileDb, csv: Option<string>, order: seq<int>)
    requires ResourceIdUtil.ParsePositiveIds(csv).Success?
    requires SongServiceClient.Enumerates(order, Existing(db, ResourceIdUtil.ParsePositiveIds(csv).value))
    ensures var r := DeleteResources(db, csv, order, None);
            && r.response.Success?
            && (forall x :: x in r.response.value <==> x in ResourceIdUtil.ParsePositiveIds(csv).value && x in db.files)
            && (forall i, j :: 0 <= i < j < |r.response.value| ==> r.response.value[i] != r.response.value[j])
  {
  }
}
