/** `OutboxPublisherFacade`: the four dispatch paths. Each is one transaction
    taken as an atomic step from a ledger, the row locks other transactions
    hold, and what the song service did with the request, to the committed
    ledger and the request sent. */
module OutboxPublisher {
  import opened Wrappers
  import opened Numerals
  import opened Downstream
  import opened OutboxEvent
  import opened OutboxRepository
  import opened OutboxConfig
  import opened SongMetadata
  import opened SongServiceClient
  import opened FailureDetail
  import SongErrors

  /** The requests a dispatch sends to the song service. */
  datatype Request =
    | CreateOne(body: seq<(string, Json)>)
    | DeleteCsv(csv: string)
    | CreateBulk(songs: seq<map<string, Json>>)
    | DeleteBulk(ids: set<int>)

  /** A committed dispatch: the ledger and the request sent, if any. */
  datatype Step = Step(ledger: Ledger, request: Option<Request>)

  /** `after` is `before` without the rows under `gone`; nothing else differs. */
  predicate OnlyRemoved(before: Ledger, after: Ledger, gone: set<Key>) {
    && after.rows.Keys == before.rows.Keys - gone
    && after.nextId == before.nextId
    && (forall k :: k in after.rows ==> after.rows[k] == before.rows[k])
  }

  /** Only the keys present matter to a removal. */
  lemma OnlyRemovedPresent(before: Ledger, after: Ledger, gone: set<Key>)
    requires OnlyRemoved(before, after, gone)
    ensures OnlyRemoved(before, after, before.rows.Keys * gone)
  {
  }

  /** `after` is `before` with one more attempt and the error `err` on each row
      under `failed`; nothing else differs. */
  predicate OnlyFailed(before: Ledger, after: Ledger, failed: set<Key>, err: string) {
    && after.rows.Keys == before.rows.Keys
    && after.nextId == before.nextId
    && (forall k :: k in before.rows && k in failed ==>
          after.rows[k] == before.rows[k].(attempts := before.rows[k].attempts + 1, lastError := Some(err)))
    && (forall k :: k in before.rows && k !in failed ==> after.rows[k] == before.rows[k])
  }

  /** What `markAsFailed` leaves behind: with an error text that fits the
      column, one more attempt and the text on each row under `failed`; with
      one that does not, the ledger as it was. */
  predicate FailureRecorded(before: Ledger, after: Ledger, failed: set<Key>, err: string) {
    if |err| <= LastErrorLength then OnlyFailed(before, after, failed, err) else after == before
  }

  /** Which `truncate` a dispatch applies to the failure detail: the one the
      publisher has, whose result can exceed the column, or the fitted one. */
  datatype Truncation = AsWritten | Fitted

  /** The error text a dispatch hands to `markAsFailed`. */
  function ErrorText(mode: Truncation, th: Thrown): string {
    match mode
    case AsWritten => ExtractDetailedError(th)
    case Fitted => DetailedError(th)
  }

  /** The error text fits the column exactly when the truncation is the
      fitted one or `truncate` has nothing to cut. */
  lemma ErrorTextFits(mode: Truncation, th: Thrown)
    ensures |ErrorText(mode, th)| <= LastErrorLength <==> mode.Fitted? || !Overflows(th)
  {
    if mode.AsWritten? && Overflows(th) {
      ExtractDetailedErrorOverflows(th);
    }
  }

  /** `markAsFailed` inside the dispatch's transaction. When the database
      refuses the error text, the exception escapes the dispatch and the
      transaction rolls back: the ledger is as it was. */
  function RecordFailure(l: Ledger, t: EventType, ids: set<int>, err: string): (r: Ledger)
    ensures |err| <= LastErrorLength ==> OnlyFailed(l, r, l.rows.Keys * Matching(t, ids), err)
    ensures |err| > LastErrorLength ==> r == l
  {
    match MarkFailed(l, t, ids, err)
    case Success(u) => u.ledger
    case Failure(_) => l
  }

  /** `deleteOutboxEvents` on a delivery. */
  function RecordDelivery(l: Ledger, t: EventType, ids: set<int>): (r: Ledger)
    ensures OnlyRemoved(l, r, Matching(t, ids))
  {
    DeleteByTypeAndIds(l, t, ids).ledger
  }

  /** The client's exception for a failed create. */
  function CreateFailure(id: int, th: Thrown): Thrown {
    Wrap(Other("SongServiceException", Some(CreateFailureMessage(id))), th)
  }

  /** `processCreateEvent`: claim the entity; if the claim is empty, stop.
      Otherwise POST the create body; on success or when the first HTTP
      exception in the failure's chain has status 409, remove the entity's create row; on any other failure,
      count an attempt on it with the detailed error. With the publisher's own
      truncation an over-long detail makes that last step fail, and the whole
      transaction rolls back. */
  function ProcessCreateEvent(mode: Truncation, l: Ledger, held: set<Key>, id: int, m: SongMetadataDto,
                              exchange: Outcome): (r: Step)
    ensures !Claimable(l, held, id) ==> r == Step(l, None)
    ensures Claimable(l, held, id) ==> r.request == Some(CreateOne(CreateBody(id, m)))
    ensures Claimable(l, held, id) && (exchange.Delivered? || IsConflict409(exchange.thrown)) ==>
              OnlyRemoved(l, r.ledger, {Key(CreateMetadata, id)})
    ensures Claimable(l, held, id) && exchange.Raised? && !IsConflict409(exchange.thrown) ==>
              FailureRecorded(l, r.ledger, l.rows.Keys * {Key(CreateMetadata, id)},
                              ErrorText(mode, CreateFailure(id, exchange.thrown)))
    ensures (mode.AsWritten? && exchange.Raised? && !IsConflict409(exchange.thrown)
             && Overflows(CreateFailure(id, exchange.thrown))) ==> r.ledger == l
  {
    assert Matching(CreateMetadata, {id}) == {Key(CreateMetadata, id)};
    var claim := Lock(l, held, {id});
    assert claim.ids == {} <==> !Claimable(l, held, id);
    if claim.ids == {} then Step(l, None)
    else
      var request := Some(CreateOne(CreateBody(id, m)));
      var outcome := CreateSongMetadata(id, m, exchange);
      assert outcome.Raised? ==> outcome.thrown == CreateFailure(id, exchange.thrown);
      assert outcome.Raised? ==> (IsConflict409(outcome.thrown) <==> IsConflict409(exchange.thrown)) by {
        if outcome.Raised? {
          WrapKeepsHttp(Other("SongServiceException", Some(CreateFailureMessage(id))), exchange.thrown);
        }
      }
      if outcome.Delivered? || IsConflict409(outcome.thrown) then
        Step(RecordDelivery(l, CreateMetadata, {id}), request)
      else
        ErrorTextFits(mode, outcome.thrown);
        Step(RecordFailure(l, CreateMetadata, {id}, ErrorText(mode, outcome.thrown)), request)
  }

  /** The client's exception for a failed CSV delete. */
  function DeleteFailure(order: seq<int>, th: Thrown): Thrown {
    Wrap(Other("SongServiceException", Some(DeleteFailureMessage(order))), th)
  }

  /** `processDeleteEvents`: with no ids or an empty claim, stop. Otherwise
      send the claimed ids as one CSV delete; on success remove their delete
      rows, on any failure (a 409 included) count an attempt on each. */
  function ProcessDeleteEvents(mode: Truncation, l: Ledger, held: set<Key>, ids: set<int>, order: seq<int>,
                               exchange: Outcome): (r: Step)
    requires Enumerates(order, Lock(l, held, ids).ids)
    ensures Lock(l, held, ids).ids == {} ==> r == Step(l, None)
    ensures Lock(l, held, ids).ids != {} ==> r.request == Some(DeleteCsv(IdCsv(order)))
    ensures Lock(l, held, ids).ids != {} && exchange.Delivered? ==>
              OnlyRemoved(l, r.ledger, Matching(DeleteMetadata, Lock(l, held, ids).ids))
    ensures Lock(l, held, ids).ids != {} && exchange.Raised? ==>
              FailureRecorded(l, r.ledger, l.rows.Keys * Matching(DeleteMetadata, Lock(l, held, ids).ids),
                              ErrorText(mode, DeleteFailure(order, exchange.thrown)))
    ensures mode.AsWritten? && exchange.Raised? && Overflows(DeleteFailure(order, exchange.thrown)) ==> r.ledger == l
  {
    if ids == {} then Step(l, None)
    else
      var claim := Lock(l, held, ids);
      if claim.ids == {} then Step(l, None)
      else
        assert order[0] in claim.ids;
        var call := DeleteSongMetadataCsv(order, exchange);
        var request := Some(DeleteCsv(IdCsv(order)));
        if call.outcome.Delivered? then
          Step(RecordDelivery(l, DeleteMetadata, claim.ids), request)
        else
          ErrorTextFits(mode, call.outcome.thrown);
          Step(RecordFailure(l, DeleteMetadata, claim.ids, ErrorText(mode, call.outcome.thrown)), request)
  }

  /** The exception `buildBulkCreateJson` throws for a stored payload that is
      not a JSON object. */
  function BuildFailure(eventId: nat): Thrown {
    Thrown(Other("IllegalStateException", Some("Failed to build bulk create JSON")),
           [Other("IllegalArgumentException", Some("Invalid outbox payload for event ID: " + Decimal(eventId)))])
  }

  /** `buildBulkCreateJson`: the stored payloads, in batch order, as the
      `songs` array; the first payload that is not an object aborts it. */
  function BuildBulkCreate(batch: seq<Row>): (r: Result<seq<map<string, Json>>, Thrown>)
    ensures r.Success? <==> forall i :: 0 <= i < |batch| ==> batch[i].payload.ObjectPayload?
    ensures r.Success? ==> |r.value| == |batch| && forall i :: 0 <= i < |batch| ==> r.value[i] == batch[i].payload.fields
    ensures r.Failure? ==>
              exists i :: 0 <= i < |batch| && !batch[i].payload.ObjectPayload? &&
                (forall j :: 0 <= j < i ==> batch[j].payload.ObjectPayload?) && r.error == BuildFailure(batch[i].id)
  {
    if |batch| == 0 then Success([])
    else if !batch[0].payload.ObjectPayload? then Failure(BuildFailure(batch[0].id))
    else
      match BuildBulkCreate(batch[1..])
      case Success(rest) => Success([batch[0].payload.fields] + rest)
      case Failure(e) =>
        var i :| 0 <= i < |batch[1..]| && !batch[1..][i].payload.ObjectPayload? &&
                 (forall j :: 0 <= j < i ==> batch[1..][j].payload.ObjectPayload?) && e == BuildFailure(batch[1..][i].id);
        assert batch[i + 1] == batch[1..][i];
        assert forall j :: 0 <= j < i + 1 ==> batch[j].payload.ObjectPayload? by {
          forall j | 0 <= j < i + 1 ensures batch[j].payload.ObjectPayload? {
            if j > 0 { assert batch[j] == batch[1..][j - 1]; }
          }
        }
        Failure(e)
  }

  /** The entity ids of a batch. */
  function BatchIds(batch: seq<Row>): set<int> {
    set i | 0 <= i < |batch| :: batch[i].entityId
  }

  /** `processCreateBatchOnce` after the batch is selected: with an empty batch,
      stop; otherwise build the bulk body and send it. On success remove the
      create rows of the batch's entities; if building or sending fails, count
      an attempt on each of them, unless the detail is too long to record. */
  function DispatchCreateBatch(mode: Truncation, l: Ledger, batch: seq<Row>, exchange: Outcome): (r: Step)
    ensures |batch| == 0 ==> r == Step(l, None)
    ensures |batch| > 0 && BuildBulkCreate(batch).Success? ==> r.request == Some(CreateBulk(BuildBulkCreate(batch).value))
    ensures BuildBulkCreate(batch).Failure? ==> r.request.None?
    ensures |batch| > 0 && BuildBulkCreate(batch).Success? && exchange.Delivered? ==>
              OnlyRemoved(l, r.ledger, Matching(CreateMetadata, BatchIds(batch)))
    ensures |batch| > 0 && BuildBulkCreate(batch).Success? && exchange.Raised? ==>
              FailureRecorded(l, r.ledger, l.rows.Keys * Matching(CreateMetadata, BatchIds(batch)),
                              ErrorText(mode, exchange.thrown))
    ensures mode.AsWritten? && BuildBulkCreate(batch).Success? && exchange.Raised? && Overflows(exchange.thrown) ==>
              r.ledger == l
    ensures BuildBulkCreate(batch).Failure? ==>
              FailureRecorded(l, r.ledger, l.rows.Keys * Matching(CreateMetadata, BatchIds(batch)),
                              ErrorText(mode, BuildBulkCreate(batch).error))
  {
    if |batch| == 0 then Step(l, None)
    else
      var ids := BatchIds(batch);
      match BuildBulkCreate(batch)
      case Failure(th) => Step(RecordFailure(l, CreateMetadata, ids, ErrorText(mode, th)), None)
      case Success(songs) =>
        if exchange.Delivered? then Step(RecordDelivery(l, CreateMetadata, ids), Some(CreateBulk(songs)))
        else
          ErrorTextFits(mode, exchange.thrown);
          Step(RecordFailure(l, CreateMetadata, ids, ErrorText(mode, exchange.thrown)), Some(CreateBulk(songs)))
  }

  /** `processDeleteBatchOnce` after the batch is selected: with an empty batch,
      stop; otherwise send the batch's entity ids in one bulk delete, and
      remove or count an attempt on their delete rows. */
  function DispatchDeleteBatch(mode: Truncation, l: Ledger, batch: seq<Row>, exchange: Outcome): (r: Step)
    ensures |batch| == 0 ==> r == Step(l, None)
    ensures |batch| > 0 ==> r.request == Some(DeleteBulk(BatchIds(batch)))
    ensures |batch| > 0 && exchange.Delivered? ==>
              OnlyRemoved(l, r.ledger, Matching(DeleteMetadata, BatchIds(batch)))
    ensures |batch| > 0 && exchange.Raised? ==>
              FailureRecorded(l, r.ledger, l.rows.Keys * Matching(DeleteMetadata, BatchIds(batch)),
                              ErrorText(mode, exchange.thrown))
    ensures mode.AsWritten? && exchange.Raised? && Overflows(exchange.thrown) ==> r.ledger == l
  {
    if |batch| == 0 then Step(l, None)
    else
      var ids := BatchIds(batch);
      if exchange.Delivered? then Step(RecordDelivery(l, DeleteMetadata, ids), Some(DeleteBulk(ids)))
      else
        ErrorTextFits(mode, exchange.thrown);
        Step(RecordFailure(l, DeleteMetadata, ids, ErrorText(mode, exchange.thrown)), Some(DeleteBulk(ids)))
  }

  /** The rows a batch of one type names by entity id are exactly the batch's
      own rows: the key makes the entity id and type determine the row. */
  lemma MatchingBatchIsBatch(l: Ledger, batch: seq<Row>, t: EventType)
    requires forall i :: 0 <= i < |batch| ==> KeyOf(batch[i]) in l.rows && batch[i].eventType == t
    ensures l.rows.Keys * Matching(t, BatchIds(batch)) == BatchKeys(batch)
  {
    forall k | k in l.rows.Keys * Matching(t, BatchIds(batch))
      ensures k in BatchKeys(batch)
    {
      var id :| id in BatchIds(batch) && k == Key(t, id);
      var i :| 0 <= i < |batch| && batch[i].entityId == id;
      assert KeyOf(batch[i]) == k;
    }
    forall k | k in BatchKeys(batch)
      ensures k in l.rows.Keys * Matching(t, BatchIds(batch))
    {
      var i :| 0 <= i < |batch| && KeyOf(batch[i]) == k;
      assert batch[i].entityId in BatchIds(batch);
    }
  }

  /** `processCreateBatchOnce`: select the oldest `createBatchSize` create rows
      below `maxAttempts` that no one else holds, and dispatch them. Delivery
      removes exactly the selected rows; a failure counts one attempt on
      exactly the selected rows, or leaves them all as they were when its
      detail does not fit the column. */
  method ProcessCreateBatchOnce(mode: Truncation, cfg: Config, l: Ledger, held: set<Key>, exchange: Outcome)
    returns (batch: seq<Row>, r: Step)
    requires OutboxConfig.Valid(cfg) && WellFormed(l)
    ensures |batch| == Min(cfg.createBatchSize, |Eligible(l, held, CreateMetadata, cfg.maxAttempts)|)
    ensures BatchKeys(batch) <= Eligible(l, held, CreateMetadata, cfg.maxAttempts)
    ensures |batch| == 0 ==> r == Step(l, None)
    ensures |batch| > 0 && BuildBulkCreate(batch).Success? && exchange.Delivered? ==>
              OnlyRemoved(l, r.ledger, BatchKeys(batch))
    ensures |batch| > 0 && BuildBulkCreate(batch).Success? && exchange.Raised? ==>
              FailureRecorded(l, r.ledger, BatchKeys(batch), ErrorText(mode, exchange.thrown))
    ensures mode.AsWritten? && BuildBulkCreate(batch).Success? && exchange.Raised? && Overflows(exchange.thrown) ==>
              r.ledger == l
    ensures BuildBulkCreate(batch).Failure? ==>
              r.request.None? && FailureRecorded(l, r.ledger, BatchKeys(batch), ErrorText(mode, BuildBulkCreate(batch).error))
  {
    batch := FindBatchForProcessing(l, held, CreateMetadata, cfg.maxAttempts, cfg.createBatchSize);
    MatchingBatchIsBatch(l, batch, CreateMetadata);
    r := DispatchCreateBatch(mode, l, batch, exchange);
    if |batch| > 0 && BuildBulkCreate(batch).Success? && exchange.Delivered? {
      OnlyRemovedPresent(l, r.ledger, Matching(CreateMetadata, BatchIds(batch)));
    }
  }

  /** `processDeleteBatchOnce`: the same over delete rows, `deleteBatchSize`
      at a time, with the entity ids as the bulk delete's body. */
  method ProcessDeleteBatchOnce(mode: Truncation, cfg: Config, l: Ledger, held: set<Key>, exchange: Outcome)
    returns (batch: seq<Row>, r: Step)
    requires OutboxConfig.Valid(cfg) && WellFormed(l)
    ensures |batch| == Min(cfg.deleteBatchSize, |Eligible(l, held, DeleteMetadata, cfg.maxAttempts)|)
    ensures BatchKeys(batch) <= Eligible(l, held, DeleteMetadata, cfg.maxAttempts)
    ensures |batch| == 0 ==> r == Step(l, None)
    ensures |batch| > 0 ==> r.request == Some(DeleteBulk(BatchIds(batch)))
    ensures |batch| > 0 && exchange.Delivered? ==> OnlyRemoved(l, r.ledger, BatchKeys(batch))
    ensures |batch| > 0 && exchange.Raised? ==>
              FailureRecorded(l, r.ledger, BatchKeys(batch), ErrorText(mode, exchange.thrown))
    ensures mode.AsWritten? && exchange.Raised? && Overflows(exchange.thrown) ==> r.ledger == l
  {
    batch := FindBatchForProcessing(l, held, DeleteMetadata, cfg.maxAttempts, cfg.deleteBatchSize);
    MatchingBatchIsBatch(l, batch, DeleteMetadata);
    r := DispatchDeleteBatch(mode, l, batch, exchange);
    if |batch| > 0 && exchange.Delivered? {
      OnlyRemovedPresent(l, r.ledger, Matching(DeleteMetadata, BatchIds(batch)));
    }
  }

  /** A failure whose first HTTP exception in the chain has status 409 leaves
      exactly the ledger a success leaves, and sends the same request. */
  lemma ConflictIsDelivered(mode: Truncation, l: Ledger, held: set<Key>, id: int, m: SongMetadataDto, th: Thrown)
    requires IsConflict409(th)
    ensures ProcessCreateEvent(mode, l, held, id, m, Raised(th)) == ProcessCreateEvent(mode, l, held, id, m, Delivered)
  {
    if Claimable(l, held, id) {
      var a := ProcessCreateEvent(mode, l, held, id, m, Raised(th));
      var b := ProcessCreateEvent(mode, l, held, id, m, Delivered);
      OnlyRemovedUnique(l, a.ledger, b.ledger, {Key(CreateMetadata, id)});
    }
  }

  /** A removal is determined by the keys it removes. */
  lemma OnlyRemovedUnique(before: Ledger, a: Ledger, b: Ledger, gone: set<Key>)
    requires OnlyRemoved(before, a, gone) && OnlyRemoved(before, b, gone)
    ensures a == b
  {
    assert a.rows == b.rows;
  }

  /** The song service answers a create for an existing song with its
      `SongAlreadyExistsException` response; whatever else the failure carries,
      the outbox counts that as delivered. */
  lemma SongAlreadyExistsIsDelivered(mode: Truncation, l: Ledger, held: set<Key>, id: int, m: SongMetadataDto,
                                     message: string, body: string, statusText: string, causes: seq<Cause>)
    ensures var exchange := Raised(Thrown(Http(SongErrors.Handle(SongErrors.SongAlreadyExists(message)).status, body, statusText), causes));
            ProcessCreateEvent(mode, l, held, id, m, exchange) == ProcessCreateEvent(mode, l, held, id, m, Delivered)
  {
    var th := Thrown(Http(SongErrors.Handle(SongErrors.SongAlreadyExists(message)).status, body, statusText), causes);
    assert FirstHttp(Chain(th)) == Some(0);
    ConflictIsDelivered(mode, l, held, id, m, th);
  }

  /** The delete path has no such exception: a 409 on a claimed delete row
      counts an attempt against it, provided its detail "HTTP 409 - " and the
      body fits the column; with the publisher's own truncation a longer body
      rolls the dispatch back and the row keeps its count. */
  lemma DeleteConflictCountsAsFailure(mode: Truncation, l: Ledger, held: set<Key>, id: int, order: seq<int>,
                                      body: string, statusText: string)
    requires Unheld(l, held, Key(DeleteMetadata, id)) && order == [id]
    requires !JavaText.IsBlank(body)
    ensures var r := ProcessDeleteEvents(mode, l, held, {id}, order, Raised(Thrown(Http(409, body, statusText), [])));
            && Key(DeleteMetadata, id) in r.ledger.rows
            && (r.ledger.rows[Key(DeleteMetadata, id)].attempts == l.rows[Key(DeleteMetadata, id)].attempts + 1
                <==> mode.Fitted? || |"HTTP 409 - " + body| <= MaxDetailLength)
  {
    var th := Thrown(Http(409, body, statusText), []);
    assert Lock(l, held, {id}).ids == {id};
    assert Key(DeleteMetadata, id) in Matching(DeleteMetadata, {id});
    ConflictDetail(order, body, statusText);
    ErrorTextFits(mode, DeleteFailure(order, th));
  }

  /** The detail of a wrapped 409 with a non-blank body is "HTTP 409 - " and
      the body. */
  lemma ConflictDetail(order: seq<int>, body: string, statusText: string)
    requires !JavaText.IsBlank(body)
    ensures RawDetail(DeleteFailure(order, Thrown(Http(409, body, statusText), []))) == "HTTP 409 - " + body
    ensures Overflows(DeleteFailure(order, Thrown(Http(409, body, statusText), []))) <==> |"HTTP 409 - " + body| > MaxDetailLength
  {
    var th := Thrown(Http(409, body, statusText), []);
    HttpAtTop(th);
    WrappedDetail(DeleteFailureMessage(order), th);
    ConflictCode();
    var d := "HTTP 409 - " + body;
    assert !JavaText.IsWhitespace(d[0]);
  }

  lemma ConflictCode()
    ensures JavaDecimal(409) == "409"
  {
    assert Decimal(4) == "4";
    assert Decimal(40) == "40";
  }

  /** A failure on a row's last allowed attempt retires it from batch
      selection for good; on an earlier attempt it stays selectable. */
  lemma ExhaustedAfterLastFailure(before: Ledger, after: Ledger, failed: set<Key>, err: string,
                                  held: set<Key>, k: Key, maxAttempts: int)
    requires OnlyFailed(before, after, failed, err) && k in before.rows && k in failed && k !in held
    ensures k in Eligible(after, held, k.eventType, maxAttempts) <==> before.rows[k].attempts + 1 < maxAttempts
  {
  }

  /** The finding, as written: a create the song service fails with a status
      other than 409 and a body of 2000 or more non-blank characters is sent,
      but its detail comes out of `extractDetailedError` at 2015 characters,
      the column refuses it, and the rollback leaves the row at its old
      attempt count, eligible again on the next tick. */
  lemma AsWrittenLongErrorRollsBack(l: Ledger, held: set<Key>, id: int, m: SongMetadataDto,
                                    code: int, body: string, statusText: string)
    requires Claimable(l, held, id) && code != 409
    requires !JavaText.IsBlank(body) && |body| >= MaxDetailLength
    ensures var r := ProcessCreateEvent(AsWritten, l, held, id, m, Raised(Thrown(Http(code, body, statusText), [])));
            r.request == Some(CreateOne(CreateBody(id, m))) && r.ledger == l
  {
    var th := Thrown(Http(code, body, statusText), []);
    assert FirstHttp(Chain(th)) == Some(0);
    WrappedDetail(CreateFailureMessage(id), th);
    WrapKeepsHttp(Other("SongServiceException", Some(CreateFailureMessage(id))), th);
    LongHttpBodyOverflows(code, body, statusText, []);
  }

  /** Corrected: with the fitted truncation every failure that is not a 409
      counts one attempt on the claimed row and records a detail that fits. */
  lemma CorrectedFailureIsCounted(l: Ledger, held: set<Key>, id: int, m: SongMetadataDto, th: Thrown)
    requires Unheld(l, held, Key(CreateMetadata, id)) && !IsConflict409(CreateFailure(id, th))
    ensures var r := ProcessCreateEvent(Fitted, l, held, id, m, Raised(th));
            var k := Key(CreateMetadata, id);
            && k in r.ledger.rows
            && r.ledger.rows[k].attempts == l.rows[k].attempts + 1
            && r.ledger.rows[k].lastError == Some(DetailedError(CreateFailure(id, th)))
            && |DetailedError(CreateFailure(id, th))| <= LastErrorLength
  {
    WrapKeepsHttp(Other("SongServiceException", Some(CreateFailureMessage(id))), th);
  }

  /** Through the client, the recorded error of a failed immediate create is
      the HTTP detail when the song service answered, and the client's own
      message otherwise: never the "Connection error" text. */
  lemma CreateFailureDetail(id: int, th: Thrown)
    ensures FirstHttp(Chain(th)).Some? ==> RawDetail(CreateFailure(id, th)) == HttpDetail(Chain(th)[FirstHttp(Chain(th)).value])
    ensures FirstHttp(Chain(th)).None? ==> RawDetail(CreateFailure(id, th)) == CreateFailureMessage(id)
  {
    WrappedDetail(CreateFailureMessage(id), th);
  }
}
