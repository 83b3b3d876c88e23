/** `OutboxRepository`: the row-locking claim, batch selection, and the two
    bulk updates of the publisher. Row locks are explicit: `held` is the set of
    keys whose rows another open transaction has locked. */
module OutboxRepository {
  import opened Wrappers
  import opened OutboxEvent

  /** A row `SKIP LOCKED` can take. */
  predicate Unheld(l: Ledger, held: set<Key>, k: Key) {
    k in l.rows && k !in held
  }

  /** An entity `lock` reports: one of its rows, of either type, is free. */
  predicate Claimable(l: Ledger, held: set<Key>, id: int) {
    Unheld(l, held, Key(CreateMetadata, id)) || Unheld(l, held, Key(DeleteMetadata, id))
  }

  /** What `lock` returns (the entity ids) and the locks held afterwards. */
  datatype Claim = Claim(ids: set<int>, held: set<Key>)

  /** `lock`: `SELECT entity_id ... WHERE entity_id IN :ids FOR UPDATE SKIP
      LOCKED`. It locks every free row of the requested entities and reports
      their entity ids; it looks at neither the type nor the attempts. */
  function Lock(l: Ledger, held: set<Key>, ids: set<int>): (c: Claim)
    ensures c.ids <= ids
    ensures forall id :: id in c.ids <==> id in ids && Claimable(l, held, id)
    ensures held <= c.held
    ensures forall k :: k in c.held && k !in held ==> k in l.rows && k.entityId in c.ids
    ensures forall k :: k in l.rows && k.entityId in c.ids ==> k in c.held
  {
    var taken := set k | k in l.rows.Keys && k.entityId in ids && k !in held;
    var claimed := set k | k in taken :: k.entityId;
    assert forall id :: id in ids && Claimable(l, held, id) ==> id in claimed by {
      forall id | id in ids && Claimable(l, held, id)
        ensures id in claimed
      {
        if Unheld(l, held, Key(CreateMetadata, id)) {
          assert Key(CreateMetadata, id) in taken;
        } else {
          assert Key(DeleteMetadata, id) in taken;
        }
      }
    }
    assert forall id :: id in claimed ==> Claimable(l, held, id) by {
      forall id | id in claimed
        ensures Claimable(l, held, id)
      {
        var k :| k in taken && k.entityId == id;
        if k.eventType == CreateMetadata {
          assert Unheld(l, held, Key(CreateMetadata, id));
        } else {
          assert Unheld(l, held, Key(DeleteMetadata, id));
        }
      }
    }
    Claim(claimed, held + taken)
  }

  /** Attempts, payloads and errors play no part in a claim: only which keys
      exist and which are held. */
  lemma ClaimIgnoresRowContents(l1: Ledger, l2: Ledger, held: set<Key>, ids: set<int>)
    requires l1.rows.Keys == l2.rows.Keys
    ensures Lock(l1, held, ids).ids == Lock(l2, held, ids).ids
  {
  }

  /** Two claims made one after the other never share an entity: the first
      locks every row of what it claims. */
  lemma ClaimsExclusive(l: Ledger, held: set<Key>, ids1: set<int>, ids2: set<int>)
    ensures Lock(l, held, ids1).ids !! Lock(l, Lock(l, held, ids1).held, ids2).ids
  {
    var c1 := Lock(l, held, ids1);
    var c2 := Lock(l, c1.held, ids2);
  }

  /** The type is not filtered: while a batch holds an entity's create row,
      a claim for that entity still succeeds through its delete row. */
  lemma ClaimThroughOtherType(l: Ledger, held: set<Key>, e: int)
    requires Key(CreateMetadata, e) in held
    requires Unheld(l, held, Key(DeleteMetadata, e))
    ensures Lock(l, held, {e}).ids == {e}
  {
  }

  /** Rows `findBatchForProcessing` may return: of the type, below the attempt
      limit, and not locked elsewhere. */
  function Eligible(l: Ledger, held: set<Key>, t: EventType, maxAttempts: int): (e: set<Key>)
    ensures e <= l.rows.Keys
  {
    set k | k in l.rows.Keys && k.eventType == t && l.rows[k].attempts < maxAttempts && k !in held
  }

  function Min(a: int, b: int): int {
    if a <= b then a else b
  }

  lemma {:induction false} EarliestExists(l: Ledger, candidates: set<Key>)
    requires candidates != {} && candidates <= l.rows.Keys
    ensures exists k :: k in candidates && forall k' :: k' in candidates ==> l.rows[k].createdAt <= l.rows[k'].createdAt
    decreases candidates
  {
    var k :| k in candidates;
    if candidates != {k} {
      var rest := candidates - {k};
      EarliestExists(l, rest);
      var m :| m in rest && forall k' :: k' in rest ==> l.rows[m].createdAt <= l.rows[k'].createdAt;
      var w := if l.rows[k].createdAt <= l.rows[m].createdAt then k else m;
      assert forall k' :: k' in candidates ==> l.rows[w].createdAt <= l.rows[k'].createdAt by {
        forall k' | k' in candidates
          ensures l.rows[w].createdAt <= l.rows[k'].createdAt
        {
          if k' != k { assert k' in rest; }
        }
      }
    }
  }

  /** A partial selection: `keys` are candidates taken earliest first, each
      once, and `remaining` holds the candidates not yet taken, none earlier
      than any taken one. */
  predicate Selection(l: Ledger, candidates: set<Key>, keys: seq<Key>, remaining: set<Key>)
    requires candidates <= l.rows.Keys
  {
    && remaining <= candidates
    && (forall k :: k in candidates ==> (k in remaining <==> k !in keys))
    && |keys| + |remaining| == |candidates|
    && (forall i :: 0 <= i < |keys| ==> keys[i] in candidates)
    && (forall i, j :: 0 <= i < j < |keys| ==> keys[i] != keys[j])
    && (forall i, j :: 0 <= i < j < |keys| ==> l.rows[keys[i]].createdAt <= l.rows[keys[j]].createdAt)
    && (forall i, k :: 0 <= i < |keys| && k in remaining ==> l.rows[keys[i]].createdAt <= l.rows[k].createdAt)
  }

  /** Taking an earliest remaining candidate extends a selection. */
  lemma SelectionStep(l: Ledger, candidates: set<Key>, keys: seq<Key>, remaining: set<Key>, k: Key)
    requires candidates <= l.rows.Keys && Selection(l, candidates, keys, remaining)
    requires k in remaining && forall k' :: k' in remaining ==> l.rows[k].createdAt <= l.rows[k'].createdAt
    ensures Selection(l, candidates, keys + [k], remaining - {k})
  {
    assert forall i :: 0 <= i < |keys| ==> keys[i] != k && l.rows[keys[i]].createdAt <= l.rows[k].createdAt;
    assert |remaining - {k}| == |remaining| - 1;
  }

  /** The ordering and limit of the batch query, on keys: the earliest `limit`
      of the candidates, oldest first, each once. */
  method EarliestKeys(l: Ledger, candidates: set<Key>, limit: nat) returns (keys: seq<Key>)
    requires candidates <= l.rows.Keys
    ensures |keys| == Min(limit, |candidates|)
    ensures forall i :: 0 <= i < |keys| ==> keys[i] in candidates
    ensures forall i, j :: 0 <= i < j < |keys| ==> keys[i] != keys[j]
    ensures forall i, j :: 0 <= i < j < |keys| ==> l.rows[keys[i]].createdAt <= l.rows[keys[j]].createdAt
    ensures forall i, k :: 0 <= i < |keys| && k in candidates && k !in keys ==>
              l.rows[keys[i]].createdAt <= l.rows[k].createdAt
  {
    var remaining := candidates;
    keys := [];
    while |keys| < limit && remaining != {}
      invariant Selection(l, candidates, keys, remaining) && |keys| <= limit
      decreases |remaining|
    {
      EarliestExists(l, remaining);
      var k :| k in remaining && forall k' :: k' in remaining ==> l.rows[k].createdAt <= l.rows[k'].createdAt;
      SelectionStep(l, candidates, keys, remaining, k);
      keys := keys + [k];
      remaining := remaining - {k};
    }
    assert forall k :: k in candidates && k !in keys ==> k in remaining;
  }

  /** `findBatchForProcessing`: `ORDER BY created_at LIMIT :limit FOR UPDATE SKIP
      LOCKED`. The earliest `limit` eligible rows, oldest first; among rows
      created at the same instant the order is the database's choice. */
  method FindBatchForProcessing(l: Ledger, held: set<Key>, t: EventType, maxAttempts: int, limit: nat)
    returns (batch: seq<Row>)
    requires WellFormed(l)
    ensures |batch| == Min(limit, |Eligible(l, held, t, maxAttempts)|)
    ensures forall i :: 0 <= i < |batch| ==>
              KeyOf(batch[i]) in Eligible(l, held, t, maxAttempts) && l.rows[KeyOf(batch[i])] == batch[i]
    ensures forall i :: 0 <= i < |batch| ==> batch[i].eventType == t && batch[i].attempts < maxAttempts
    ensures forall i, j :: 0 <= i < j < |batch| ==> KeyOf(batch[i]) != KeyOf(batch[j])
    ensures forall i, j :: 0 <= i < j < |batch| ==> batch[i].createdAt <= batch[j].createdAt
    ensures forall i, k :: 0 <= i < |batch| && k in Eligible(l, held, t, maxAttempts) && k !in BatchKeys(batch) ==>
              batch[i].createdAt <= l.rows[k].createdAt
  {
    var keys := EarliestKeys(l, Eligible(l, held, t, maxAttempts), limit);
    batch := seq(|keys|, i requires 0 <= i < |keys| => l.rows[keys[i]]);
    assert forall i :: 0 <= i < |keys| ==> KeyOf(batch[i]) == keys[i];
    assert forall k :: k in BatchKeys(batch) <==> k in keys by {
      forall k | k in keys
        ensures k in BatchKeys(batch)
      {
        var i :| 0 <= i < |keys| && keys[i] == k;
        assert KeyOf(batch[i]) == k;
      }
    }
  }

  /** The keys of a batch's rows. */
  function BatchKeys(batch: seq<Row>): set<Key> {
    set i | 0 <= i < |batch| :: KeyOf(batch[i])
  }

  /** The keys of type `t` for the given entity ids. */
  function Matching(t: EventType, ids: set<int>): set<Key> {
    set id | id in ids :: Key(t, id)
  }

  /** A bulk statement's new table and its affected-row count. */
  datatype Update = Update(ledger: Ledger, count: nat)

  /** `deleteByTypeAndEntityIds`: removes the rows of that type whose entity id
      is listed, and reports how many went. */
  function DeleteByTypeAndIds(l: Ledger, t: EventType, ids: set<int>): (r: Update)
    ensures r.ledger.rows.Keys == l.rows.Keys - Matching(t, ids)
    ensures forall k :: k in r.ledger.rows ==> r.ledger.rows[k] == l.rows[k]
    ensures r.ledger.nextId == l.nextId
    ensures r.count == |l.rows| - |r.ledger.rows|
    ensures WellFormed(l) ==> WellFormed(r.ledger)
  {
    var rows := map k | k in l.rows && !(k.eventType == t && k.entityId in ids) :: l.rows[k];
    RemainingRows(l, t, ids, rows);
    Update(Ledger(rows, l.nextId), |l.rows| - |rows|)
  }

  /** The rows a delete leaves are those outside the matching keys, and there
      are no more of them than before. */
  lemma RemainingRows(l: Ledger, t: EventType, ids: set<int>, rows: map<Key, Row>)
    requires rows.Keys == set k | k in l.rows && !(k.eventType == t && k.entityId in ids)
    requires forall k :: k in rows ==> rows[k] == l.rows[k]
    ensures rows.Keys == l.rows.Keys - Matching(t, ids)
    ensures |rows| <= |l.rows|
    ensures WellFormed(l) ==> WellFormed(Ledger(rows, l.nextId))
  {
    forall k | k in l.rows
      ensures k in Matching(t, ids) <==> k.eventType == t && k.entityId in ids
    {
      if k.eventType == t && k.entityId in ids {
        assert k == Key(t, k.entityId);
      }
    }
    SubsetCount(rows.Keys, l.rows.Keys);
    if WellFormed(l) {
      WellFormedRemove(l, rows);
    }
  }

  /** A subset is no larger than its superset. */
  lemma SubsetCount<T>(part: set<T>, all: set<T>)
    requires part <= all
    ensures |part| <= |all|
  {
    assert all == (all - part) + part;
  }

  /** The database's refusal of an over-long `last_error` value. */
  datatype DbError = ValueTooLong(limit: nat)

  /** `markFailedByTypeAndEntityIds`: one more attempt and the given error on
      every row of that type whose entity id is listed. Writing a message longer
      than the column into any row makes the statement fail. */
  function MarkFailed(l: Ledger, t: EventType, ids: set<int>, err: string): (r: Result<Update, DbError>)
    ensures r.Failure? <==> (exists k :: k in l.rows && k in Matching(t, ids)) && |err| > LastErrorLength
    ensures r.Failure? ==> r.error == ValueTooLong(LastErrorLength)
    ensures r.Success? ==> r.value.ledger.rows.Keys == l.rows.Keys && r.value.ledger.nextId == l.nextId
    ensures r.Success? ==> forall k :: k in l.rows && k in Matching(t, ids) ==>
              r.value.ledger.rows[k] == l.rows[k].(attempts := l.rows[k].attempts + 1, lastError := Some(err))
    ensures r.Success? ==> forall k :: k in l.rows && k !in Matching(t, ids) ==> r.value.ledger.rows[k] == l.rows[k]
    ensures r.Success? ==> r.value.count == |set k | k in l.rows && r.value.ledger.rows[k] != l.rows[k]|
  {
    var hit := l.rows.Keys * Matching(t, ids);
    if hit != {} && |err| > LastErrorLength then
      Failure(ValueTooLong(LastErrorLength))
    else
      var rows := map k | k in l.rows.Keys ::
        if k in hit then l.rows[k].(attempts := l.rows[k].attempts + 1, lastError := Some(err)) else l.rows[k];
      assert (set k | k in l.rows && rows[k] != l.rows[k]) == hit;
      Success(Update(Ledger(rows, l.nextId), |hit|))
  }

  /** A committed mark-failed keeps the table well formed: ids, keys and creation
      times stay, and the error it wrote fits the column. */
  lemma MarkFailedKeepsWellFormed(l: Ledger, t: EventType, ids: set<int>, err: string)
    requires WellFormed(l) && MarkFailed(l, t, ids, err).Success?
    ensures WellFormed(MarkFailed(l, t, ids, err).value.ledger)
    ensures Stable(l, MarkFailed(l, t, ids, err).value.ledger)
  {
    var r := MarkFailed(l, t, ids, err).value.ledger;
    forall k | k in r.rows
      ensures r.rows[k].id == l.rows[k].id && r.rows[k].createdAt == l.rows[k].createdAt
      ensures KeyOf(r.rows[k]) == k && r.rows[k].attempts >= 0 && FitsColumn(r.rows[k].lastError)
    {
      if k in Matching(t, ids) {
        assert |err| <= LastErrorLength;
      }
    }
  }
}
