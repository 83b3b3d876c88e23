/** `OutboxBulkRepositoryImpl`: the two `INSERT ... ON CONFLICT` statements that
    enqueue events. The identity column draws its value for every proposed row,
    before the conflict is detected, so a conflicting row still uses one up. */
module OutboxBulkRepository {
  import opened Wrappers
  import opened OutboxEvent

  /** `upsertCreateMetadataEvent`: inserts `(CREATE_METADATA, entityId)`, or on a
      conflict replaces the payload and resets `attempts` and `last_error`,
      keeping the row's id and creation time. */
  function UpsertCreate(l: Ledger, entityId: int, payload: Payload, now: int): (r: Ledger)
    ensures Stable(l, r) && r.nextId == l.nextId + 1
    ensures r.rows.Keys == l.rows.Keys + {Key(CreateMetadata, entityId)}
    ensures r.rows[Key(CreateMetadata, entityId)].payload == payload
    ensures r.rows[Key(CreateMetadata, entityId)].attempts == 0
    ensures r.rows[Key(CreateMetadata, entityId)].lastError.None?
    ensures Key(CreateMetadata, entityId) !in l.rows ==> r.rows[Key(CreateMetadata, entityId)].createdAt == now
    ensures forall k :: k in l.rows && k != Key(CreateMetadata, entityId) ==> r.rows[k] == l.rows[k]
  {
    var k := Key(CreateMetadata, entityId);
    if k in l.rows then Ledger(l.rows[k := l.rows[k].(payload := payload, attempts := 0, lastError := None)], l.nextId + 1)
    else Ledger(l.rows[k := NewRow(l.nextId, k, payload, now)], l.nextId + 1)
  }

  /** The upsert keeps ids unique and below the identity sequence. */
  lemma UpsertKeepsWellFormed(l: Ledger, entityId: int, payload: Payload, now: int)
    requires WellFormed(l)
    ensures WellFormed(UpsertCreate(l, entityId, payload, now))
  {
    var k := Key(CreateMetadata, entityId);
    if k in l.rows {
      WellFormedReplace(l, l.rows[k].(payload := payload, attempts := 0, lastError := None), l.nextId + 1);
    } else {
      WellFormedInsert(l, NewRow(l.nextId, k, payload, now));
    }
  }

  /** One row of the delete batch: `ON CONFLICT DO NOTHING`. */
  function InsertDeleteIfAbsent(l: Ledger, entityId: int, now: int): (r: Ledger)
    ensures WellFormed(l) ==> WellFormed(r)
    ensures Stable(l, r) && r.nextId == l.nextId + 1
    ensures r.rows.Keys == l.rows.Keys + {Key(DeleteMetadata, entityId)}
    ensures forall k :: k in l.rows ==> r.rows[k] == l.rows[k]
    ensures Key(DeleteMetadata, entityId) !in l.rows ==>
              r.rows[Key(DeleteMetadata, entityId)] == NewRow(l.nextId, Key(DeleteMetadata, entityId), EmptyObject, now)
  {
    var k := Key(DeleteMetadata, entityId);
    if k in l.rows then Ledger(l.rows, l.nextId + 1)
    else
      var row := NewRow(l.nextId, k, EmptyObject, now);
      assert WellFormed(l) ==> WellFormed(Ledger(l.rows[k := row], l.nextId + 1)) by {
        if WellFormed(l) { WellFormedInsert(l, row); }
      }
      Ledger(l.rows[k := row], l.nextId + 1)
  }

  /** The delete-event keys of the listed entities. */
  function DeleteKeys(ids: seq<int>): set<Key> {
    set id | id in ids :: Key(DeleteMetadata, id)
  }

  lemma DeleteKeysOfCons(ids: seq<int>)
    requires |ids| > 0
    ensures DeleteKeys(ids) == {Key(DeleteMetadata, ids[0])} + DeleteKeys(ids[1..])
  {
    assert ids == [ids[0]] + ids[1..];
  }

  /** `insertDeleteMetadataEvents`, the ids in the set's iteration order: each id
      without a `(DELETE_METADATA, id)` row gets one with payload `{}` and no
      attempts; rows already there, of either type, are left as they are. An
      empty set issues no statement. */
  function InsertDeleteEvents(l: Ledger, ids: seq<int>, now: int): (r: Ledger)
    ensures Stable(l, r) && r.nextId == l.nextId + |ids|
    ensures r.rows.Keys == l.rows.Keys + DeleteKeys(ids)
    ensures forall k :: k in l.rows ==> r.rows[k] == l.rows[k]
    ensures forall k :: k in r.rows && k !in l.rows ==>
              && r.rows[k].payload == EmptyObject && r.rows[k].attempts == 0
              && r.rows[k].lastError.None? && r.rows[k].createdAt == now
    decreases |ids|
  {
    if |ids| == 0 then l
    else
      var first := InsertDeleteIfAbsent(l, ids[0], now);
      DeleteKeysOfCons(ids);
      InsertDeleteEvents(first, ids[1..], now)
  }

  lemma {:induction false} InsertDeleteKeepsWellFormed(l: Ledger, ids: seq<int>, now: int)
    requires WellFormed(l)
    ensures WellFormed(InsertDeleteEvents(l, ids, now))
    decreases |ids|
  {
    if |ids| > 0 {
      InsertDeleteKeepsWellFormed(InsertDeleteIfAbsent(l, ids[0], now), ids[1..], now);
    }
  }

  /** Enqueuing the same deletions twice leaves the same rows as enqueuing them
      once (only the identity sequence moves on). */
  lemma InsertDeleteIdempotent(l: Ledger, ids: seq<int>, now: int, later: int)
    ensures InsertDeleteEvents(InsertDeleteEvents(l, ids, now), ids, later).rows == InsertDeleteEvents(l, ids, now).rows
  {
    var once := InsertDeleteEvents(l, ids, now);
    var twice := InsertDeleteEvents(once, ids, later);
    assert twice.rows.Keys == once.rows.Keys;
  }

  /** Upserting a create event never touches the delete event of the same
      entity, nor any row of another entity. */
  lemma UpsertLeavesOtherRows(l: Ledger, entityId: int, payload: Payload, now: int, k: Key)
    requires k in l.rows && (k.eventType == DeleteMetadata || k.entityId != entityId)
    ensures UpsertCreate(l, entityId, payload, now).rows[k] == l.rows[k]
  {
  }
}
