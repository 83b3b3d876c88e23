# Audio library: resource service, song service and the metadata outbox

A Dafny model of the core of an MP3 library. The library is split across two
services.

The **resource service** does three things:
- It stores MP3 uploads and extracts their song metadata.
- It parses the comma-separated id lists its endpoints accept.
- It turns its exceptions into `ApiError` responses.

It keeps the song service in step in two ways. Some calls go to it directly.
The others go through a transactional **outbox**: a table `outbox_events` with
at most one row per `(type, entity_id)`. A publisher does four things with it:
- it claims rows with `FOR UPDATE SKIP LOCKED`;
- it sends them one by one or in batches;
- it deletes them on delivery;
- on failure, it counts an attempt and records an error text, which it cuts
  down to a limit.

The **song service** does three things:
- it validates and stores song records;
- it deletes them in bulk;
- it inserts them in bulk with `ON CONFLICT (id) DO NOTHING`.

Everything is modelled as pure functions over immutable values:
- Each database table is a `map` from key to row. It carries the next value of
  its identity column when it has one.
- A transaction is a function from the table before to the table after. A
  rollback returns the table's rows unchanged. An identity value drawn before
  the rollback stays used, as a database sequence does not give values back.
- The song service's answer to a call is an input, `Outcome`: either
  `Delivered` or `Raised` with the exception chain.
- Other facts the code cannot know in advance are parameters as well:
  - the order in which the database or a `Set` enumerates ids;
  - the MP3 parser's tags;
  - whether Jackson fails;
  - the clock.

Layout, one module per file:
- `wrappers`: `Option` and `Result`.
- `numerals`: `String.valueOf` and `Long.parseLong` on decimal strings.
- `java_text`: `trim`, `isBlank`, `split(",")`, `String.join`, `contains`.
- `bean_validation`, `song_metadata`, `song_dto`: the Jakarta constraints and
  the two song records.
- `api_errors`, `resource_errors`, `song_errors`: the exception handlers.
- `outbox_event`, `outbox_config`, `outbox_bulk_repository`,
  `outbox_repository`, `outbox_event_service`, `outbox_publisher`: the outbox.
- `downstream`, `failure_detail`: exception chains and the publisher's error
  text.
- `song_service_client`: the resource service's calls to the song service.
- `resource_id_parser`, `resource_id_util`: the two id parsers.
- `audio_metadata_extractor`, `mp3_resource_service`,
  `mp3_resource_file_service`: upload, download and delete.
- `song_service`, `song_bulk_repository`: the song service.

## Model

| member | source | states |
|---|---|---|
| OutboxEvent.NewRow | resource-service/src/main/java/audiohub/entity/OutboxEvent.java:56-65 | A new row sits under its key with the given payload and creation time, 0 attempts and no error. |
| OutboxEvent.WellFormedInsert | resource-service/src/main/java/audiohub/entity/OutboxEvent.java:25-43 | A row inserted under a fresh key with the next identity value keeps the table well formed. Well formed means one row per key, distinct ids below the sequence, attempts at least 0, and `lastError` fitting its column. |
| OutboxEvent.WellFormedReplace | resource-service/src/main/java/audiohub/entity/OutboxEvent.java:25-43 | Rewriting a row in place, with its id and key kept, keeps the table well formed. |
| OutboxEvent.WellFormedRemove | resource-service/src/main/java/audiohub/entity/OutboxEvent.java:25-43 | Dropping rows and leaving the rest untouched keeps the table well formed. |
| OutboxConfig.Default | resource-service/src/main/java/audiohub/config/OutboxConfig.java:21-46 | The defaults meet every Min(1) constraint. Create batches are smaller than delete batches. The create tick is more frequent than the delete tick. |
| OutboxBulkRepository.UpsertCreate | resource-service/src/main/java/audiohub/repository/OutboxBulkRepositoryImpl.java:26-46 | Afterwards the create key is present with the new payload, 0 attempts and no error. Its creation time is `now` only if it was absent. Every other row is unchanged. Ids and creation times of surviving rows are stable. The identity sequence advances by one either way. |
| OutboxBulkRepository.UpsertKeepsWellFormed | resource-service/src/main/java/audiohub/repository/OutboxBulkRepositoryImpl.java:26-46 | The upsert preserves well-formedness. |
| OutboxBulkRepository.UpsertLeavesOtherRows | resource-service/src/main/java/audiohub/repository/OutboxBulkRepositoryImpl.java:27-35 | The upsert never touches the delete row of the same entity, nor any row of another entity. |
| OutboxBulkRepository.InsertDeleteIfAbsent | resource-service/src/main/java/audiohub/repository/OutboxBulkRepositoryImpl.java:57-61 | `ON CONFLICT DO NOTHING`: an existing delete row is kept as it was. A missing one is added fresh. |
| OutboxBulkRepository.InsertDeleteEvents | resource-service/src/main/java/audiohub/repository/OutboxBulkRepositoryImpl.java:49-85 | The keys afterwards are the old keys plus a delete key per id. Old rows are unchanged. New rows are fresh. The sequence advances once per id. |
| OutboxBulkRepository.InsertDeleteKeepsWellFormed | resource-service/src/main/java/audiohub/repository/OutboxBulkRepositoryImpl.java:49-85 | The bulk delete insert preserves well-formedness. |
| OutboxBulkRepository.InsertDeleteIdempotent | resource-service/src/main/java/audiohub/repository/OutboxBulkRepositoryImpl.java:57-61 | Enqueuing the same deletions twice leaves the same rows as enqueuing them once. |
| OutboxEventService.ObjectOf | resource-service/src/main/java/audiohub/service/OutboxEventService.java:43-44 | A JSON object built member by member has exactly the member names as keys. The last member written under a name wins. |
| OutboxEventService.ObjectOfDistinct | resource-service/src/main/java/audiohub/service/OutboxEventService.java:43-44 | When the names are distinct, every member appears in the object with its own value. |
| OutboxEventService.SerializeMetadataWithId | resource-service/src/main/java/audiohub/service/OutboxEventService.java:41-52 | Serialization fails exactly when the writer fails, with the `IllegalStateException` message. Otherwise the payload is an object with the five metadata fields and `id`, and `id` is the resource id. |
| OutboxEventService.PayloadMatchesCreateBody | resource-service/src/main/java/audiohub/service/OutboxEventService.java:41-52 | The queued payload is the same JSON object as the direct create request's body. |
| OutboxEventService.EnqueueCreate | resource-service/src/main/java/audiohub/service/OutboxEventService.java:24-29 | A serialization failure leaves no row. Otherwise exactly the create key is upserted, with 0 attempts and the serialized payload. The other rows are unchanged, and well-formedness is kept. |
| OutboxEventService.EnqueueDelete | resource-service/src/main/java/audiohub/service/OutboxEventService.java:31-39 | An empty set changes nothing. Otherwise the bulk insert adds one delete key per id and leaves the old rows unchanged. |
| OutboxRepository.Lock | resource-service/src/main/java/audiohub/repository/OutboxRepository.java:16-21 | The ids returned are exactly the requested ids that have a row no one else holds. Every row of those ids becomes held, and nothing else does. |
| OutboxRepository.ClaimIgnoresRowContents | resource-service/src/main/java/audiohub/repository/OutboxRepository.java:16-21 | Which ids a claim returns depends only on which keys exist, not on attempts, payloads or errors. |
| OutboxRepository.ClaimsExclusive | resource-service/src/main/java/audiohub/repository/OutboxRepository.java:16-21 | Two claims made one after the other never return the same entity. |
| OutboxRepository.ClaimThroughOtherType | resource-service/src/main/java/audiohub/repository/OutboxRepository.java:16-21 | The lock does not filter by type. While an entity's create row is held, a free delete row still lets a second claim return that entity. |
| OutboxRepository.EarliestKeys | resource-service/src/main/java/audiohub/repository/OutboxRepository.java:27-28 | `ORDER BY created_at LIMIT` on keys. The result has `min(limit, candidates)` distinct candidates in creation order. No candidate left out is older than one taken. |
| OutboxRepository.FindBatchForProcessing | resource-service/src/main/java/audiohub/repository/OutboxRepository.java:23-35 | The batch has `min(limit, eligible)` distinct rows. Each is unlocked, of the type and below the attempt limit. They are in creation order, and none left out is older. |
| OutboxRepository.DeleteByTypeAndIds | resource-service/src/main/java/audiohub/repository/OutboxRepository.java:37-47 | It removes exactly the rows of the type with a listed entity id and leaves the rest unchanged. The count is the number of rows removed. Well-formedness is kept. |
| OutboxRepository.MarkFailed | resource-service/src/main/java/audiohub/repository/OutboxRepository.java:49-62 | An error longer than the 2000-character column fails the statement when some row matches. Otherwise each matching row gains one attempt and the error. Every other row is unchanged, and the count is the number of rows changed. |
| OutboxRepository.MarkFailedKeepsWellFormed | resource-service/src/main/java/audiohub/repository/OutboxRepository.java:49-62 | A committed mark-failed keeps the table well formed. Ids and creation times stay stable. |
| OutboxPublisher.RecordFailure | resource-service/src/main/java/audiohub/service/OutboxPublisherFacade.java:179-181 | If the error fits the column, only the matching rows change, each with one more attempt and that error. If it does not fit, the transaction rolls back to the old table. |
| OutboxPublisher.RecordDelivery | resource-service/src/main/java/audiohub/service/OutboxPublisherFacade.java:175-177 | The ledger afterwards is the old one without the matching rows. Nothing else differs. |
| OutboxPublisher.ProcessCreateEvent | resource-service/src/main/java/audiohub/service/OutboxPublisherFacade.java:36-72 | An empty claim sends nothing and changes nothing. Otherwise the create body is sent. A delivery or a 409 removes only the create row. On any other failure `markAsFailed` runs with the error text. A text that fits the column counts one attempt on the create row. With the publisher's own truncation, a detail over 2000 characters is not recorded: the transaction rolls back and the ledger is unchanged. |
| OutboxPublisher.ProcessDeleteEvents | resource-service/src/main/java/audiohub/service/OutboxPublisherFacade.java:74-104 | With no claimed ids nothing is sent. Otherwise the claimed ids are sent as a CSV. A delivery removes the claimed delete rows. A failure, a 409 included, counts one attempt on each of them, with the detail of the client's wrapped exception, when that text fits the column. With the publisher's own truncation, a detail over 2000 characters rolls the transaction back instead. |
| OutboxPublisher.BuildBulkCreate | resource-service/src/main/java/audiohub/service/OutboxPublisherFacade.java:183-204 | It succeeds exactly when every payload is a JSON object, and then returns the payloads in batch order. Otherwise it fails on the first payload that is not an object. |
| OutboxPublisher.DispatchCreateBatch | resource-service/src/main/java/audiohub/service/OutboxPublisherFacade.java:114-138 | An empty batch sends nothing. A delivery removes the batch's create rows. A failed send or build counts an attempt on them with the detailed error if it fits the column, and otherwise leaves the ledger unchanged. With the publisher's own truncation, a send failure whose detail is over 2000 characters rolls back. A failed build sends nothing. |
| OutboxPublisher.DispatchDeleteBatch | resource-service/src/main/java/audiohub/service/OutboxPublisherFacade.java:149-172 | An empty batch sends nothing. Otherwise the batch's ids are sent. A delivery removes the matching delete rows. A failure counts an attempt on them if its detail fits the column. With the publisher's own truncation, a detail over 2000 characters rolls back and the ledger is unchanged. |
| OutboxPublisher.ProcessCreateBatchOnce | resource-service/src/main/java/audiohub/service/OutboxPublisherFacade.java:106-139 | The batch is the oldest `createBatchSize` eligible create rows. On delivery exactly those rows are removed. On a send or build failure exactly those rows get one more attempt when the error text fits the column. Otherwise nothing changes; with the publisher's own truncation that is every detail over 2000 characters. |
| OutboxPublisher.ProcessDeleteBatchOnce | resource-service/src/main/java/audiohub/service/OutboxPublisherFacade.java:141-173 | The same for the oldest `deleteBatchSize` eligible delete rows: the batch's ids are sent, and the same delivery, failure and rollback cases apply. |
| OutboxPublisher.ConflictIsDelivered | resource-service/src/main/java/audiohub/service/OutboxPublisherFacade.java:56-65 | A failure whose first HTTP exception in the chain has status 409 leaves exactly the ledger and request of a successful delivery. |
| OutboxPublisher.SongAlreadyExistsIsDelivered | resource-service/src/main/java/audiohub/service/OutboxPublisherFacade.java:56-65 | The song service's answer to a duplicate create is an HTTP 409. The outbox treats it as delivered. |
| OutboxPublisher.DeleteConflictCountsAsFailure | resource-service/src/main/java/audiohub/service/OutboxPublisherFacade.java:98-103 | On the delete path a 409 with a non-blank body is an ordinary failure. The row stays, and it gains an attempt exactly when "HTTP 409 - " plus the body fits in 2000 characters, or when the fitted truncation is used. |
| OutboxPublisher.ErrorTextFits | resource-service/src/main/java/audiohub/service/OutboxPublisherFacade.java:241-248 | The recorded error text fits the 2000-character column exactly when the fitted truncation is used or `truncate` has nothing to cut. |
| OutboxPublisher.ExhaustedAfterLastFailure | resource-service/src/main/java/audiohub/repository/OutboxRepository.java:23-35 | After a counted failure, a free row stays eligible exactly when its new attempt count is still below `maxAttempts`. |
| OutboxPublisher.AsWrittenLongErrorRollsBack | resource-service/src/main/java/audiohub/service/OutboxPublisherFacade.java:56-72 | As written, an immediate create that fails with a status other than 409 and a body of 2000 or more non-blank characters still sends the request. Its detail comes to 2015 characters, the mark-failed is refused, and the ledger is unchanged, so the attempt is never counted. |
| OutboxPublisher.CorrectedFailureIsCounted | resource-service/src/main/java/audiohub/service/OutboxPublisherFacade.java:56-72 | With the fitted truncation, every immediate create failure other than a 409 counts one attempt on the create row and records a detail that fits the column. |
| OutboxPublisher.CreateFailureDetail | resource-service/src/main/java/audiohub/service/OutboxPublisherFacade.java:206-222 | Through the client's wrapper, the recorded detail is the HTTP detail when the song service answered. Otherwise it is the client's own message. |
| FailureDetail.Truncate | resource-service/src/main/java/audiohub/service/OutboxPublisherFacade.java:241-248 | Null or blank text becomes "Unknown error". Text within the limit is kept. Longer text keeps its first `maxLength` characters plus the 15-character marker. The result is never blank. |
| FailureDetail.TruncateFitted | resource-service/src/main/java/audiohub/service/OutboxPublisherFacade.java:241-248 | The corrected truncation never exceeds the limit. It agrees with `truncate` whenever no cut is needed, and otherwise keeps a prefix and ends with the marker. |
| FailureDetail.HttpDetail | resource-service/src/main/java/audiohub/service/OutboxPublisherFacade.java:207-214 | The HTTP detail is "HTTP", the status code and " - ", followed by the response body, or by the status text when the body is blank. |
| FailureDetail.RawDetail | resource-service/src/main/java/audiohub/service/OutboxPublisherFacade.java:206-222 | The first HTTP failure in the chain decides the detail. Without one, a top-level connection failure gives "Connection error: " followed by its message, or "null" when it has none. Otherwise the top exception's message is used, or its class name when the message is null. |
| FailureDetail.ExtractDetailedError | resource-service/src/main/java/audiohub/service/OutboxPublisherFacade.java:206-222 | As written, the result is never blank and at most 2015 characters. A detail within 2000 characters is kept as it is. |
| FailureDetail.DetailedError | resource-service/src/main/java/audiohub/service/OutboxPublisherFacade.java:206-222 | The corrected detail is never blank and at most 2000 characters. It equals the as-written one whenever that already fits. |
| FailureDetail.ExtractDetailedErrorOverflows | resource-service/src/main/java/audiohub/service/OutboxPublisherFacade.java:245-247 | A non-blank detail over 2000 characters comes out at exactly 2015 characters. |
| FailureDetail.LongHttpBodyOverflows | resource-service/src/main/java/audiohub/service/OutboxPublisherFacade.java:207-214 | An HTTP failure with a non-blank body of 2000 characters or more produces such a detail. |
| FailureDetail.WrapKeepsHttp | resource-service/src/main/java/audiohub/service/OutboxPublisherFacade.java:224-239 | Wrapping in a non-HTTP exception changes neither `isConflict409` nor an HTTP detail. |
| FailureDetail.WrappedDetail | resource-service/src/main/java/audiohub/service/SongServiceClient.java:35-40 | Behind the client's `SongServiceException`, the detail is the inner HTTP detail if there is one. Otherwise it is the client's message. |
| Downstream.FirstHttp | resource-service/src/main/java/audiohub/service/OutboxPublisherFacade.java:230-239 | `findCause` returns the position of the first HTTP exception in the cause chain, and none exactly when there is none. |
| Downstream.FirstHttpOfWrap | resource-service/src/main/java/audiohub/service/OutboxPublisherFacade.java:230-239 | A non-HTTP wrapper shifts the position found by one and changes nothing else. |
| SongServiceClient.CreateBody | resource-service/src/main/java/audiohub/service/SongServiceClient.java:72-76 | The create body has six distinct members, with `id` first. |
| SongServiceClient.ServiceFailure | resource-service/src/main/java/audiohub/service/SongServiceClient.java:64-68 | A failed call leaves the client as a `SongServiceException` with the original chain as its cause. A delivered call stays delivered. |
| SongServiceClient.CreateSongMetadata | resource-service/src/main/java/audiohub/service/SongServiceClient.java:22-41 | A create fails exactly when the exchange does. It then fails with "Failed to create metadata for resource ID: ..." wrapping the cause. |
| SongServiceClient.DeleteSongMetadataCsv | resource-service/src/main/java/audiohub/service/SongServiceClient.java:44-70 | An empty set sends nothing and succeeds. Otherwise one request is sent, and its `id` parameter splits back into the decimal ids in order. |
| SongServiceClient.NeverConnectionAtTop | resource-service/src/main/java/audiohub/service/SongServiceClient.java:35-40 | The exception leaving the client is never an HTTP or connection exception at the top. |
| SongServiceClient.CommaFreeDecimal | resource-service/src/main/java/audiohub/service/SongServiceClient.java:52-54 | The decimal form of an id holds no comma. |
| SongServiceClient.SplitOfIdCsv | resource-service/src/main/java/audiohub/service/SongServiceClient.java:52-54 | The joined id parameter is not blank, and `split(",")` gives back the decimal ids. |
| SongServiceClient.TokensOfIdCsv | resource-service/src/main/java/audiohub/service/SongServiceClient.java:52-54 | The trimmed non-empty fields of the id parameter are exactly the decimal ids. |
| SongServiceClient.ParseAllOfDecimals | resource-service/src/main/java/audiohub/service/ResourceIdParser.java:30-35 | Parsing the decimal forms of positive `long` ids, in any order and with repeats, gives exactly the set of ids. |
| SongServiceClient.IdCsvRoundTrip | resource-service/src/main/java/audiohub/service/SongServiceClient.java:52-54 | The parameter the client builds for a non-empty set of positive ids parses back to that set whenever it fits 200 characters. |
| ResourceIdParser.ParsePositiveId | resource-service/src/main/java/audiohub/service/ResourceIdParser.java:38-52 | A token succeeds exactly when it matches `[1-9]\d*` and fits a `long`. The result is the value whose decimal form is the token. Any failure carries "Invalid ID format: '...'". |
| ResourceIdParser.ParseDecimal | resource-service/src/main/java/audiohub/service/ResourceIdParser.java:38-52 | The decimal form of any positive `long` parses back to it. |
| ResourceIdParser.NonEmptyTrimmed | resource-service/src/main/java/audiohub/service/ResourceIdParser.java:30-33 | The kept tokens are non-empty. As a set, they are exactly the non-empty trimmed fields. |
| ResourceIdParser.ParseAll | resource-service/src/main/java/audiohub/service/ResourceIdParser.java:34-35 | It succeeds exactly when every token parses, and then yields the set of their values. Otherwise it fails with the error of the first token that does not parse. |
| ResourceIdParser.ParsePositiveIds | resource-service/src/main/java/audiohub/service/ResourceIdParser.java:18-36 | Null or blank input fails with "At least one resource ID must be provided". Over 200 characters fails with the length message. Otherwise it succeeds exactly when every non-empty trimmed field parses. The result is then the set of the fields' values, each a positive `long` whose decimal form is a field. A failure carries the error of the first field that does not parse. |
| ResourceIdParser.CommasOnlyIsEmpty | resource-service/src/main/java/audiohub/service/ResourceIdParser.java:30-35 | ",,," parses to the empty set, not to an error. |
| ResourceIdParser.NonCanonicalTokensRejected | resource-service/src/main/java/audiohub/service/ResourceIdParser.java:16 | "0", "01", "-1" and "1.5" are rejected. |
| ResourceIdUtil.ParsePositiveId | resource-service/src/main/java/audiohub/util/ResourceIdUtil.java:15-22 | A token succeeds exactly when it is non-null, matches `^[1-9][0-9]*$` and fits a `long`. Null or a mismatch gives the fixed invalid-id message. A `long` overflow gives `NumberFormatException`. |
| ResourceIdUtil.ParseList | resource-service/src/main/java/audiohub/util/ResourceIdUtil.java:31-34 | It succeeds exactly when every token parses. It keeps order and duplicates, one value per token. A failure carries the error of the first token that does not parse, so an overflow before a mismatch raises `NumberFormatException`. |
| ResourceIdUtil.ParsePositiveIds | resource-service/src/main/java/audiohub/util/ResourceIdUtil.java:24-35 | Null or blank input and input over 200 characters fail with their messages. Otherwise it succeeds exactly when every trimmed field of `split(",")` parses, with one id per field, each the value of the trimmed field. A failure carries the error of the first field that does not parse. |
| ResourceIdUtil.ParseFieldsOfDecimals | resource-service/src/main/java/audiohub/util/ResourceIdUtil.java:31-34 | The trimmed decimal forms of positive `long` values parse back to the same values, in order. |
| ResourceIdUtil.CsvRoundTrip | resource-service/src/main/java/audiohub/util/ResourceIdUtil.java:24-35 | The comma-joined decimal ids of a non-empty list of positive `long`s parse back to that list, in order and with repeats, whenever the text fits 200 characters. |
| ResourceIdUtil.EmptyFieldRejected | resource-service/src/main/java/audiohub/util/ResourceIdUtil.java:31-34 | An empty field that `split` keeps, such as a leading comma or two adjacent commas, makes the whole list fail. |
| ResourceIdUtil.ParseDecimalId | resource-service/src/main/java/audiohub/util/ResourceIdUtil.java:15-22 | The decimal form of a positive `long` parses back to it. |
| ResourceIdUtil.ParseListOfDecimals | resource-service/src/main/java/audiohub/util/ResourceIdUtil.java:31-34 | The decimal forms of positive `long` values parse back to the same list. |
| ResourceIdUtil.TrailingCommaIgnored | resource-service/src/main/java/audiohub/util/ResourceIdUtil.java:31 | "1,2," parses to [1, 2], because `split` drops trailing empty fields. |
| ResourceIdUtil.SingleTrailingCommaIgnored | resource-service/src/main/java/audiohub/util/ResourceIdUtil.java:31 | "1," parses to [1]. |
| ResourceIdUtil.TrailingBlankFieldRejected | resource-service/src/main/java/audiohub/util/ResourceIdUtil.java:31-34 | `split` keeps a trailing field of blanks, so "1, " fails. |
| Mp3ResourceService.CheckAudioSize | resource-service/src/main/java/audiohub/service/Mp3ResourceService.java:89-95 | Only present audio over 50 MiB is refused, with "Audio file is too large...". |
| Mp3ResourceService.Admit | resource-service/src/main/java/audiohub/service/Mp3ResourceService.java:34-40 | The checks run in order: size, then extraction, then validation. Each failure is reported as its own exception. Admission succeeds exactly when all three pass, and yields the extracted metadata. |
| Mp3ResourceService.SaveAndNotify | resource-service/src/main/java/audiohub/service/Mp3ResourceService.java:42-51 | The create request names the next id. On delivery the audio is saved under that id and the id is returned. On failure the transaction rolls back and the client's exception is raised. The saved row is gone, but the identity value it drew stays used. |
| Mp3ResourceService.Store | resource-service/src/main/java/audiohub/service/Mp3ResourceService.java:34-52 | A refused upload leaves the table as it was and sends nothing. An admitted one sends the create request for the next id. It commits exactly when that call is delivered: the audio is stored under the next id and that id is returned. A failed call rolls back the row and raises the client's exception, and the next id moves on by one. Identity values stay fresh. |
| Mp3ResourceService.FailedUploadSkipsId | resource-service/src/main/java/audiohub/service/Mp3ResourceService.java:46-47 | After an admitted upload whose create call failed, the next committed upload gets the id after the one the failed upload drew. |
| Mp3ResourceService.StoreTakesFreshId | resource-service/src/main/java/audiohub/service/Mp3ResourceService.java:42-51 | A committed upload takes an id no existing resource has. |
| Mp3ResourceService.GetResource | resource-service/src/main/java/audiohub/service/Mp3ResourceService.java:54-68 | A malformed id is reported with "Invalid value '...' for ID". A missing row is reported with "Resource with ID=... not found". Otherwise the stored bytes are returned. |
| Mp3ResourceService.StoreThenGet | resource-service/src/main/java/audiohub/service/Mp3ResourceService.java:34-68 | An upload reads back, under the decimal form of the returned id, as the same bytes. |
| Mp3ResourceService.Existing | resource-service/src/main/java/audiohub/service/Mp3ResourceService.java:77 | The ids removed are exactly the requested ids that exist. |
| Mp3ResourceService.DeleteAndNotify | resource-service/src/main/java/audiohub/service/Mp3ResourceService.java:77-86 | The CSV of the removed ids is sent. On delivery exactly those rows are gone and the rest are unchanged. On failure the transaction rolls back with the client's exception. |
| Mp3ResourceService.DeleteResources | resource-service/src/main/java/audiohub/service/Mp3ResourceService.java:70-87 | A parse error is raised and nothing changes. Nothing to delete answers an empty set and sends nothing. A request with the CSV of the removed ids is sent exactly when something exists. On delivery the existing requested ids are answered, their rows are gone and the others are unchanged. A failed call rolls back and raises the client's exception. |
| Mp3ResourceService.DeleteTwice | resource-service/src/main/java/audiohub/service/Mp3ResourceService.java:70-87 | Repeating a successful delete finds nothing, answers empty and sends no request. |
| Mp3ResourceFileService.CheckFile | resource-service/src/main/java/audiohub/service/impl/Mp3ResourceFileService.java:42-49 | A null or unsupported content type is refused first. Then a null name or one not ending in ".mp3", ignoring case, is refused. |
| Mp3ResourceFileService.UpperCaseExtensionAccepted | resource-service/src/main/java/audiohub/service/impl/Mp3ResourceFileService.java:47 | "SONG.MP3" is accepted. |
| Mp3ResourceFileService.TypeCheckedBeforeName | resource-service/src/main/java/audiohub/service/impl/Mp3ResourceFileService.java:42-49 | A wrong content type is reported whatever the file name is. |
| Mp3ResourceFileService.Store | resource-service/src/main/java/audiohub/service/impl/Mp3ResourceFileService.java:39-82 | Check failures pass through unchanged and touch nothing. Unreadable bytes fail before the save and touch nothing. A failure after the save, in extraction or in the metadata call, becomes a `RuntimeException`. Its rollback removes the row, but the identity value stays used. A success saves the row under the next id and returns its id, name and type. |
| Mp3ResourceFileService.FindById | resource-service/src/main/java/audiohub/service/impl/Mp3ResourceFileService.java:84-90 | Parser errors pass through. A missing row gives "Resource not found: ...". Otherwise the row is returned. |
| Mp3ResourceFileService.StoreThenFind | resource-service/src/main/java/audiohub/service/impl/Mp3ResourceFileService.java:39-90 | A stored file is found under the decimal form of its id. |
| Mp3ResourceFileService.Existing | resource-service/src/main/java/audiohub/service/impl/Mp3ResourceFileService.java:97 | `findExistingIds` returns exactly the requested ids that have a row. |
| Mp3ResourceFileService.DeleteResources | resource-service/src/main/java/audiohub/service/impl/Mp3ResourceFileService.java:92-104 | A parse error changes nothing. No existing id answers empty and sends nothing. Otherwise the existing rows are deleted and the ids are answered, unless the metadata call fails, which rolls back. |
| Mp3ResourceFileService.DeletedAreRequestedAndExisting | resource-service/src/main/java/audiohub/service/impl/Mp3ResourceFileService.java:92-104 | The response lists exactly the requested ids that existed, each once, even when the CSV repeats an id. |
| AudioMetadataExtractor.MinutesAndSeconds | resource-service/src/main/java/audiohub/service/AudioMetadataExtractor.java:68-70 | Java's `/` and `%` by 60 recompose the total. The seconds take the total's sign and stay below a minute in magnitude. |
| AudioMetadataExtractor.Pad2 | resource-service/src/main/java/audiohub/service/AudioMetadataExtractor.java:71 | `%02d` of a non-negative number is all digits and reads back as the number. It is exactly two characters below 100, and from 10 up it has no leading zero. A negative number prints a minus, then the digits of its magnitude with no leading zero. |
| AudioMetadataExtractor.DurationText | resource-service/src/main/java/audiohub/service/AudioMetadataExtractor.java:61-76 | A missing or unparseable duration is "00:00". For a non-negative total the text is the minutes' digits, a colon, and two digits of seconds. The minutes read back as the total divided by 60 and the seconds as the remainder. A negative total puts a minus in the minutes or in the seconds. |
| AudioMetadataExtractor.ParseYear | resource-service/src/main/java/audiohub/service/AudioMetadataExtractor.java:54-59 | The year is the first four characters of the release date. It is null exactly when the date is null or shorter than four characters. |
| AudioMetadataExtractor.Extract | resource-service/src/main/java/audiohub/service/AudioMetadataExtractor.java:20-52 | Null or empty audio gives "MP3 audio data is required". A parser failure gives "Invalid MP3 file format or corrupted file". Otherwise the tags map field by field. |
| AudioMetadataExtractor.ExtractedYearValid | resource-service/src/main/java/audiohub/service/AudioMetadataExtractor.java:54-59 | The extracted year passes the DTO's year constraints exactly when the release date starts with four digits reading 1900 to 2099. |
| AudioMetadataExtractor.ShortDurationRoundTrip | resource-service/src/main/java/audiohub/service/AudioMetadataExtractor.java:61-76 | Below 6000 seconds the text is `mm:ss` and reads back as the same number of seconds. |
| AudioMetadataExtractor.LongDurationBreaksPattern | resource-service/src/main/java/audiohub/service/AudioMetadataExtractor.java:69-71 | From 6000 seconds on, the minutes take three digits and the DTO's pattern fails. |
| AudioMetadataExtractor.NegativeDurationBreaksPattern | resource-service/src/main/java/audiohub/service/AudioMetadataExtractor.java:68-71 | A negative total puts a minus sign in the text, so the pattern fails. |
| AudioMetadataExtractor.ExtractedDurationValid | resource-service/src/main/java/audiohub/dto/request/SongMetadataDto.java:35-37 | The extracted duration passes `^\d{2}:[0-5]\d$` exactly when the tag is missing, unparseable, or a total from 0 to 5999 seconds. |
| SongMetadata.TextViolations | resource-service/src/main/java/audiohub/dto/request/SongMetadataDto.java:19-29 | A text field has no violation exactly when it is NotBlank and at most 100 characters. A blank field reports its "is required" message. |
| SongMetadata.PatternViolations | resource-service/src/main/java/audiohub/dto/request/SongMetadataDto.java:31-37 | A pattern field has no violation exactly when it is NotBlank and matches. A blank field reports its "is required" message. |
| SongMetadata.Violations | resource-service/src/main/java/audiohub/dto/request/SongMetadataDto.java:19-37 | There are no violations exactly when all five constraints hold. Every violation names one of the five fields. |
| SongMetadata.ViolationsByField | resource-service/src/main/java/audiohub/dto/request/SongMetadataDto.java:19-37 | Each field is reported exactly when it breaks one of its constraints. |
| BeanValidation.YearPatternIsRange | resource-service/src/main/java/audiohub/dto/request/SongMetadataDto.java:32 | The year pattern holds exactly for four digits whose value is from 1900 to 2099. |
| BeanValidation.PatternValuesAreNotBlank | resource-service/src/main/java/audiohub/dto/request/SongMetadataDto.java:31-37 | A value matching the year or the duration pattern is never blank. |
| ApiErrors.BuildErrorResponse | resource-service/src/main/java/audiohub/exception/GlobalExceptionHandler.java:169-181 | The error code is the decimal form of the status. The message and details are carried over. |
| ApiErrors.LastWinner | resource-service/src/main/java/audiohub/exception/GlobalExceptionHandler.java:39-51 | Reference definition: the last error for a field that is either first for it or an "is required" message. |
| ApiErrors.MergeFieldErrors | resource-service/src/main/java/audiohub/exception/GlobalExceptionHandler.java:33-58 | The details map has exactly one key per field that has an error. |
| ApiErrors.MergeIsLastWinner | resource-service/src/main/java/audiohub/exception/GlobalExceptionHandler.java:39-51 | Each field maps to the message of its last winning error. |
| ApiErrors.RequiredMessageWins | resource-service/src/main/java/audiohub/exception/GlobalExceptionHandler.java:43-47 | A field with an "is required" error reports an "is required" message, whatever order the errors came in. |
| ApiErrors.ViolationDetails | resource-service/src/main/java/audiohub/exception/GlobalExceptionHandler.java:74-78 | One key per property path. Each value is the message of some violation of that path, and the last violation's message stands. |
| ResourceErrors.Status | resource-service/src/main/java/audiohub/exception/GlobalExceptionHandler.java:23-166 | 404 exactly for a missing resource. 400 exactly for the client errors. 500 for everything else. |
| ResourceErrors.Handle | resource-service/src/main/java/audiohub/exception/GlobalExceptionHandler.java:23-181 | It answers with that status. A 500 carries "Failed to communicate with Song Service" for song-service failures and "An unexpected error occurred" otherwise. Details come only from validation, as merged field errors or as violations. The code is the status. |
| ResourceErrors.UnsupportedWithoutContentType | resource-service/src/main/java/audiohub/exception/GlobalExceptionHandler.java:103-116 | A missing content type is reported as "unknown". |
| SongErrors.Status | song-service/src/main/java/audiohub/exception/GlobalExceptionHandler.java:20-118 | 409 exactly for an existing song. 404 exactly for a missing one. 400 exactly for the client errors. 500 for the rest. |
| SongErrors.Handle | song-service/src/main/java/audiohub/exception/GlobalExceptionHandler.java:20-132 | It answers with that status. The song, id and CSV exceptions pass their own message through. Validation errors say "Validation error" and an unreadable body "Invalid request body". A type mismatch names the rejected value and the parameter. A 500 carries "An unexpected error occurred". Only validation errors carry details, and those are the merged field errors. The code is the status. |
| SongDto.ValidFromMetadata | song-service/src/main/java/audiohub/dto/SongDto.java:10-31 | The two records carry the same field constraints: metadata is valid exactly when the song built from it with an id is. |
| SongDto.FieldErrors | song-service/src/main/java/audiohub/dto/SongDto.java:10-31 | There are no field errors exactly when the record is valid. The "ID is required" error is present exactly when the id is missing. |
| SongDto.DtoMessagesClassified | song-service/src/main/java/audiohub/dto/SongDto.java:10-30 | Every `@NotNull`/`@NotBlank` message of the record contains "is required", and no `@Size` or `@Pattern` message does. |
| SongDto.FieldErrorsOrderFree | song-service/src/main/java/audiohub/dto/SongDto.java:10-31 | Two errors of one field either agree or differ as an "is required" message against one without it. |
| SongDto.DetailsWhateverOrder | song-service/src/main/java/audiohub/exception/GlobalExceptionHandler.java:50-68 | The details map is the same for every order of the binding result's field errors. A missing id is always reported as "ID is required", and every field with an "is required" error reports that message. |
| ApiErrors.MergeOfOrderFree | resource-service/src/main/java/audiohub/exception/GlobalExceptionHandler.java:39-51 | Without conflicting messages, a field reports its "is required" message when it has one, and otherwise its only message. |
| ApiErrors.MergePermutationInvariant | resource-service/src/main/java/audiohub/exception/GlobalExceptionHandler.java:39-51 | Without conflicting messages, every permutation of the field errors gives the same details map. |
| SongService.Validate | song-service/src/main/java/audiohub/service/SongService.java:57-64 | The year range is checked first, then `^[0-5]?\d:[0-5]\d$`, each with its message. A song passes exactly when both hold. |
| SongService.CreateSong | song-service/src/main/java/audiohub/service/SongService.java:21-36 | An invalid song changes nothing. A valid one is stored under its id, overwriting any row there, and returned as given. Other rows are unchanged. |
| SongService.Existing | song-service/src/main/java/audiohub/service/SongService.java:40-43 | The ids found are exactly the requested ids that have a row. |
| SongService.DeleteSongs | song-service/src/main/java/audiohub/service/SongService.java:38-49 | The rows of all requested ids are gone, the others are unchanged, and the found ids are reported. |
| SongService.GetSong | song-service/src/main/java/audiohub/service/SongService.java:51-55 | It returns the row under the id. A missing row gives "Song not found: ...". |
| SongService.CreateThenGet | song-service/src/main/java/audiohub/service/SongService.java:21-55 | A created song reads back as given. |
| SongService.DeleteThenGet | song-service/src/main/java/audiohub/service/SongService.java:38-55 | A deleted song is not found. |
| SongService.DurationRulesOnFiveCharacters | song-service/src/main/java/audiohub/service/SongService.java:61 | On five characters, the service's rule is the DTO's rule with minutes capped at 59. |
| SongService.DurationRulesDiffer | song-service/src/main/java/audiohub/service/SongService.java:61 | "60:00" passes the DTO but not the service. "5:30" passes the service but not the DTO. |
| SongBulkRepository.AllParams | song-service/src/main/java/audiohub/repository/SongBulkRepositoryImpl.java:28-38 | The parameters are six per song, in column order, song by song. |
| SongBulkRepository.BuildInsert | song-service/src/main/java/audiohub/repository/SongBulkRepositoryImpl.java:19-44 | There is no statement exactly for a null or empty collection. Otherwise the statement has six parameters per song, between the fixed INSERT head and the ON CONFLICT tail. |
| SongBulkRepository.PlaceholdersOfValues | song-service/src/main/java/audiohub/repository/SongBulkRepositoryImpl.java:28-30 | The VALUES list holds six placeholders per song. |
| SongBulkRepository.PlaceholdersMatchParams | song-service/src/main/java/audiohub/repository/SongBulkRepositoryImpl.java:19-46 | The statement binds exactly as many parameters as it has placeholders. |
| SongBulkRepository.RowOf | song-service/src/main/java/audiohub/entity/SongEntity.java:18-35 | A song makes a `songs` row exactly when none of its six parameters is null and its year text reads as an integer. The row holds the bound id, name, artist, album and duration, and the year read from the text. |
| SongBulkRepository.InsertIgnoreConflicts | song-service/src/main/java/audiohub/repository/SongBulkRepositoryImpl.java:40-46 | The statement fails exactly when some song has a null parameter, which every `NOT NULL` column refuses, or a year text the integer column cannot take. Otherwise existing rows are untouched, every new id is added, and the row for a new id is made from the first song carrying it. |
| SongBulkRepository.InsertIdempotent | song-service/src/main/java/audiohub/repository/SongBulkRepositoryImpl.java:40-46 | Running the same insert twice leaves the table as running it once. |
| SongBulkRepository.NothingNewIsNoOp | song-service/src/main/java/audiohub/repository/SongBulkRepositoryImpl.java:40-46 | When every song makes a row and every id is present already, the insert changes nothing. |
| Numerals.DecimalOfValue | resource-service/src/main/java/audiohub/service/ResourceIdParser.java:45-46 | `Long.parseLong` of a canonical digit string, printed again, gives the same string. |
| Numerals.ValueOfDecimal | resource-service/src/main/java/audiohub/service/SongServiceClient.java:53 | `String.valueOf` of a natural number reads back as that number. |
| JavaText.Trim | resource-service/src/main/java/audiohub/service/ResourceIdParser.java:31 | `trim` leaves the infix between the characters up to U+0020 at both ends. It starts and ends with a character it keeps. |
| JavaText.Split | resource-service/src/main/java/audiohub/service/ResourceIdParser.java:30 | `split(",")` gives `[s]` when there is no comma. Otherwise it gives the fields with trailing empty ones dropped. |
| JavaText.SplitOfJoin | resource-service/src/main/java/audiohub/service/SongServiceClient.java:52-54 | Joining comma-free fields whose last one is non-empty, then splitting, gives the fields back. |

## Left out

- The outbox schedulers, `@Async`, after-commit event listeners and the
  Spring/JPA plumbing are left out. Each dispatch or service call is one atomic
  step on an immutable table. A rollback returns the rows unchanged. Identity
  values drawn before it stay used. `ResourceEntity` is not part of this model.
  Its id is taken to be generated by the database, like the identity column of
  `ResourceFileEntity`.
- Concurrency is reduced to the set of row locks held by other transactions
  (`held`). Interleavings of concurrent transactions are not modelled.
- `lock` locks rows of any type, so the model's locks are on
  `(type, entity_id)` keys. An entity with both a create and a delete row can
  be claimed by two dispatchers, one row each. `ClaimThroughOtherType` states
  this.
- JSON text is left out. A payload is an object, as a map from member name to
  value, or `NotAnObject`, which also stands for text that does not parse.
  Jackson's output is left out apart from its failure flag.
- Calls to the song service are reduced to an outcome: delivered, or an
  exception chain. The bulk client methods `createSongMetadataBulkJson` and
  `deleteSongMetadataBulk` are called by the publisher but are not part of this
  model. Their exceptions are taken as given, not as wrapped by the client.
- The legacy client `sendMetadata` and `deleteMetadata` that
  `Mp3ResourceFileService` calls are not part of this model either. Their
  effect is reduced to success or failure.
- The order in which a `Set`, `findAllById` or `deleteAndReturnIds` enumerates
  ids is an input (`order`). Each contract requires only that it list the set
  once each.
- Tika's MP3 parsing and `Double.parseDouble` are left out. The parser's tags
  are an input, and the duration is the already truncated `int` number of
  seconds. The `double`-to-`int` cast and its saturation are not modelled.
- A Java `String` counts UTF-16 code units; a Dafny `char` is one Unicode
  scalar value. A character outside the Basic Multilingual Plane (an emoji,
  say) counts 2 in Java and 1 here. So `@Size(max = 100)` and the 2000-character
  cut of a failure message can accept or cut at different places for such
  text, and Java's `substring` can split a surrogate pair, which the model
  cannot. For text in the Basic Multilingual Plane the counts agree. Case
  folding is ASCII only.
- Java `long` ids are unbounded integers. `Long.parseLong` overflow is modelled
  in both id parsers. Identity columns are assumed not to overflow.
- The bean validator returns a set of violations. The model returns them as a
  list in field order. Only which fields are reported is stated, not the order.
  The song service's binding result is also a list in field order here;
  `SongDto.DetailsWhateverOrder` shows that any other order gives the same
  details.
- `SongService.createSong` and `validate` call `songDto.resourceId()` and
  compare `songDto.year()` with integers. `SongDto` has neither an integer year
  nor `resourceId()`, so that code does not compile against the record shown.
  The model takes the song as a `SongEntity`-shaped record with an integer
  year.
- SongBulkRepository.InsertIgnoreConflicts: the year is bound as the
  `String` `SongDto.year` through `JdbcTemplate.update`, while
  `SongEntity.year` is an `Integer` column. Whether the database reads that text as an integer depends on the
  JDBC driver and server: PostgreSQL's driver sends a `String` as `varchar` by
  default, and the server then refuses the statement. The model takes this
  conversion as the parameter `readYear`; `None` from it fails the statement.
  The statement writes the column `id`, while `SongEntity` maps the key as
  `resourceId`. The model treats them as the same key, and the table is the
  one `SongService` works on.
- The controllers, the legacy `impl/AudioMetadataExtractor` and the HTTP
  routing are left out.
- A failure inside `buildBulkCreateJson` is thrown inside the `try`, so it is
  counted as a failed attempt. The model does the same.

## Findings

| source | as written | input that shows it | evidently intended | confidence | as-written member | corrected member |
|---|---|---|---|---|---|---|
| resource-service/src/main/java/audiohub/service/OutboxPublisherFacade.java:245-247 | `truncate(text, 2000)` keeps 2000 characters and appends "... (truncated)". The result is 2015 characters, but `lastError` is a 2000-character column, so `markFailedByTypeAndEntityIds` is refused and the dispatch transaction rolls back. The attempt is never counted, and the row is retried forever. | Any failed send whose detail is over 2000 characters, for example an immediate create answered with HTTP 500 and a body of 2000 or more non-blank characters (`OutboxPublisher.AsWrittenLongErrorRollsBack`). | The truncated detail fits the column, so every failure counts one attempt. All dispatch paths take the truncation as a parameter (`Truncation`: `AsWritten` or `Fitted`). | not executed | OutboxPublisher.AsWrittenLongErrorRollsBack | OutboxPublisher.CorrectedFailureIsCounted |
