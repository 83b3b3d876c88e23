/** `OutboxEvent`: the rows of the `outbox_events` table and the table itself. */
module OutboxEvent {
  import opened Wrappers

  datatype EventType = CreateMetadata | DeleteMetadata

  /** The unique key `(type, entity_id)`: the table holds at most one row per
      key, which the model makes structural by keying a map with it. */
  datatype Key = Key(eventType: EventType, entityId: int)

  /** The JSON values a metadata payload holds: the DTO's strings (or `null`)
      and the numeric resource id. */
  datatype Json = JNull | JString(text: string) | JNumber(number: int)

  /** The `payload` text column, as far as the publisher reads it back: a JSON
      object (by its fields), or anything else, which includes text that does
      not parse at all. */
  datatype Payload = ObjectPayload(fields: map<string, Json>) | NotAnObject(text: string)

  /** One row. Every column but `lastError` is `NOT NULL`; `createdAt` is a
      creation timestamp, never updated. */
  datatype Row = Row(id: nat, eventType: EventType, entityId: int, payload: Payload,
                     attempts: int, lastError: Option<string>, createdAt: int)

  /** The table, with the next value of the identity column. */
  datatype Ledger = Ledger(rows: map<Key, Row>, nextId: nat)

  /** The 2000-character column length of `lastError`. */
  const LastErrorLength := 2000

  /** The payload of a delete event, `'{}'`. */
  const EmptyObject := ObjectPayload(map[])

  function KeyOf(r: Row): Key {
    Key(r.eventType, r.entityId)
  }

  /** A freshly inserted row: no attempts yet and no error. */
  function NewRow(id: nat, k: Key, payload: Payload, now: int): (r: Row)
    ensures KeyOf(r) == k && r.id == id && r.payload == payload && r.createdAt == now
    ensures r.attempts == 0 && r.lastError.None?
  {
    Row(id, k.eventType, k.entityId, payload, 0, None, now)
  }

  predicate FitsColumn(err: Option<string>) {
    err.None? || |err.value| <= LastErrorLength
  }

  /** What the table's constraints guarantee: each row sits under its own key,
      row ids are distinct identity values below the next one, attempts start
      at 0 and only grow, and `lastError` fits its column. */
  predicate WellFormed(l: Ledger) {
    && (forall k :: k in l.rows ==> KeyOf(l.rows[k]) == k)
    && (forall k :: k in l.rows ==> l.rows[k].id < l.nextId)
    && (forall k :: k in l.rows ==> l.rows[k].attempts >= 0 && FitsColumn(l.rows[k].lastError))
    && (forall k1, k2 :: k1 in l.rows && k2 in l.rows && k1 != k2 ==> l.rows[k1].id != l.rows[k2].id)
  }

  /** A later ledger never rewrites the id or creation time of a row that is
      still there, and never reuses an identity value. */
  predicate Stable(before: Ledger, after: Ledger) {
    && before.nextId <= after.nextId
    && (forall k :: k in before.rows && k in after.rows ==>
          after.rows[k].id == before.rows[k].id && after.rows[k].createdAt == before.rows[k].createdAt)
  }

  /** Inserting a row under a fresh key with the next identity value keeps the
      table well formed. */
  lemma WellFormedInsert(l: Ledger, row: Row)
    requires WellFormed(l) && KeyOf(row) !in l.rows && row.id == l.nextId
    requires row.attempts >= 0 && FitsColumn(row.lastError)
    ensures WellFormed(Ledger(l.rows[KeyOf(row) := row], l.nextId + 1))
  {
    var r := Ledger(l.rows[KeyOf(row) := row], l.nextId + 1);
    forall k1, k2 | k1 in r.rows && k2 in r.rows && k1 != k2
      ensures r.rows[k1].id != r.rows[k2].id
    {
    }
  }

  /** Rewriting a row in place, id and key kept, keeps the table well formed. */
  lemma WellFormedReplace(l: Ledger, row: Row, nextId: nat)
    requires WellFormed(l) && KeyOf(row) in l.rows && row.id == l.rows[KeyOf(row)].id
    requires row.attempts >= 0 && FitsColumn(row.lastError) && l.nextId <= nextId
    ensures WellFormed(Ledger(l.rows[KeyOf(row) := row], nextId))
  {
    var r := Ledger(l.rows[KeyOf(row) := row], nextId);
    forall k1, k2 | k1 in r.rows && k2 in r.rows && k1 != k2
      ensures r.rows[k1].id != r.rows[k2].id
    {
    }
  }

  /** Dropping rows, the rest untouched, keeps the table well formed. */
  lemma WellFormedRemove(l: Ledger, rows: map<Key, Row>)
    requires WellFormed(l) && rows.Keys <= l.rows.Keys
    requires forall k :: k in rows ==> rows[k] == l.rows[k]
    ensures WellFormed(Ledger(rows, l.nextId))
  {
  }
}
