/** `OutboxEventService`: how the resource service enqueues outbox events
    inside its own transactions. */
module OutboxEventService {
  import opened Wrappers
  import opened Numerals
  import opened OutboxEvent
  import opened SongMetadata
  import opened ResourceErrors
  import opened OutboxBulkRepository
  import SongServiceClient

  /** A JSON object from its members in order; a later member replaces an
      earlier one of the same name, as `ObjectNode.put` does. */
  function ObjectOf(members: seq<(string, Json)>): (fields: map<string, Json>)
    ensures fields.Keys == set i | 0 <= i < |members| :: members[i].0
    ensures |members| > 0 ==> fields[members[|members| - 1].0] == members[|members| - 1].1
  {
    if |members| == 0 then map[]
    else
      var init := members[..|members| - 1];
      var last := members[|members| - 1];
      assert (set i | 0 <= i < |members| :: members[i].0) == (set i | 0 <= i < |init| :: init[i].0) + {last.0} by {
        assert forall i :: 0 <= i < |init| ==> init[i] == members[i];
      }
      ObjectOf(init)[last.0 := last.1]
  }

  /** With distinct member names, every member is in the object as given. */
  lemma {:induction false} ObjectOfDistinct(members: seq<(string, Json)>)
    requires forall i, j :: 0 <= i < j < |members| ==> members[i].0 != members[j].0
    ensures forall i :: 0 <= i < |members| ==> ObjectOf(members)[members[i].0] == members[i].1
  {
    if |members| > 0 {
      var init := members[..|members| - 1];
      ObjectOfDistinct(init);
      assert forall i :: 0 <= i < |init| ==> init[i] == members[i];
    }
  }

  function SerializeFailureMessage(id: int): string {
    "Failed to serialize metadata for resource ID: " + JavaDecimal(id)
  }

  /** `serializeMetadataWithId`: the metadata as a JSON object, every field
      written (nulls too), with `id` put last so that it overrides any `id`
      member. `writeFails` stands for Jackson's `JsonProcessingException`,
      which is rethrown as an `IllegalStateException`. */
  function SerializeMetadataWithId(id: int, m: SongMetadataDto, writeFails: bool): (r: Result<Payload, ResourceException>)
    ensures r.Failure? <==> writeFails
    ensures r.Failure? ==> r.error == IllegalState(SerializeFailureMessage(id))
    ensures r.Success? ==> r.value.ObjectPayload? && r.value.fields.Keys == {"name", "artist", "album", "year", "duration", "id"}
    ensures r.Success? ==> r.value.fields["id"] == JNumber(id)
  {
    if writeFails then Failure(IllegalState(SerializeFailureMessage(id)))
    else
      var members := SongServiceClient.MetadataFields(m) + [("id", JNumber(id))];
      assert (set i | 0 <= i < |members| :: members[i].0) == {"name", "artist", "album", "year", "duration", "id"} by {
        assert members[0].0 == "name" && members[1].0 == "artist" && members[2].0 == "album";
        assert members[3].0 == "year" && members[4].0 == "duration" && members[5].0 == "id";
      }
      Success(ObjectPayload(ObjectOf(members)))
  }

  /** The order of members with distinct names does not matter. */
  lemma ObjectOfSameMembers(a: seq<(string, Json)>, b: seq<(string, Json)>)
    requires forall i, j :: 0 <= i < j < |a| ==> a[i].0 != a[j].0
    requires forall i, j :: 0 <= i < j < |b| ==> b[i].0 != b[j].0
    requires forall x :: x in a <==> x in b
    ensures ObjectOf(a) == ObjectOf(b)
  {
    ObjectOfIncluded(a, b);
    ObjectOfIncluded(b, a);
  }

  /** Each member of the first object is in the second one with the same value
      when every member of the first list is in the second list. */
  lemma ObjectOfIncluded(a: seq<(string, Json)>, b: seq<(string, Json)>)
    requires forall i, j :: 0 <= i < j < |a| ==> a[i].0 != a[j].0
    requires forall i, j :: 0 <= i < j < |b| ==> b[i].0 != b[j].0
    requires forall x :: x in a ==> x in b
    ensures forall k :: k in ObjectOf(a) ==> k in ObjectOf(b) && ObjectOf(a)[k] == ObjectOf(b)[k]
  {
    ObjectOfDistinct(a);
    ObjectOfDistinct(b);
    var oa := ObjectOf(a);
    var ob := ObjectOf(b);
    forall k | k in oa
      ensures k in ob && oa[k] == ob[k]
    {
      var i :| 0 <= i < |a| && a[i].0 == k;
      assert a[i] in b;
      var j :| 0 <= j < |b| && b[j] == a[i];
    }
  }

  /** The queued payload and the body of the direct create request carry the
      same members with the same values. */
  lemma PayloadMatchesCreateBody(id: int, m: SongMetadataDto)
    ensures SerializeMetadataWithId(id, m, false) == Success(ObjectPayload(ObjectOf(SongServiceClient.CreateBody(id, m))))
  {
    var fields := SongServiceClient.MetadataFields(m);
    var body := SongServiceClient.CreateBody(id, m);
    var members := fields + [("id", JNumber(id))];
    assert body == [("id", JNumber(id))] + fields;
    assert forall i, j :: 0 <= i < j < |members| ==> members[i].0 != members[j].0;
    ObjectOfSameMembers(members, body);
  }

  /** `enqueueCreateMetadata`: serialise, then upsert under
      `(CREATE_METADATA, resourceId)`. A serialisation failure writes nothing. */
  function EnqueueCreate(l: Ledger, id: int, m: SongMetadataDto, writeFails: bool, now: int): (r: Result<Ledger, ResourceException>)
    ensures r.Failure? <==> writeFails
    ensures r.Failure? ==> r.error == IllegalState(SerializeFailureMessage(id))
    ensures r.Success? ==> r.value.rows.Keys == l.rows.Keys + {Key(CreateMetadata, id)}
    ensures r.Success? ==> r.value.rows[Key(CreateMetadata, id)].payload == SerializeMetadataWithId(id, m, false).value
    ensures r.Success? ==> r.value.rows[Key(CreateMetadata, id)].attempts == 0
    ensures r.Success? ==> forall k :: k in l.rows && k != Key(CreateMetadata, id) ==> r.value.rows[k] == l.rows[k]
    ensures r.Success? && WellFormed(l) ==> WellFormed(r.value)
  {
    var payload :- SerializeMetadataWithId(id, m, writeFails);
    if WellFormed(l) then UpsertKeepsWellFormed(l, id, payload, now); Success(UpsertCreate(l, id, payload, now))
    else Success(UpsertCreate(l, id, payload, now))
  }

  /** `enqueueDeleteMetadata`, the set in iteration order: nothing for an empty
      set, otherwise the set handed to the delete insert as it is. */
  function EnqueueDelete(l: Ledger, order: seq<int>, now: int): (r: Ledger)
    ensures |order| == 0 ==> r == l
    ensures |order| > 0 ==> r == InsertDeleteEvents(l, order, now)
    ensures r.rows.Keys == l.rows.Keys + (set id | id in order :: Key(DeleteMetadata, id))
    ensures forall k :: k in l.rows ==> r.rows[k] == l.rows[k]
  {
    if |order| == 0 then l else InsertDeleteEvents(l, order, now)
  }
}
