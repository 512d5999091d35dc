/**
 * The issues endpoint: GET lists the table, PUT merges a few attributes
 * into the issue addressed by (path id, body createdAt), DELETE removes that
 * issue. The table is a map from the primary key to the stored item.
 */
module Issues {
  import opened Wrappers
  import opened Values

  /** The primary key of the issues table: partition key `id`, sort key `createdAt`. */
  datatype Key = Key(id: string, createdAt: string)

  /** The key attributes as they appear inside a stored item. */
  function KeyAttrs(k: Key): Item {
    map["id" := Str(k.id), "createdAt" := Str(k.createdAt)]
  }

  /** `item` carries the key attributes of `k`. */
  predicate ItemHasKey(item: Item, k: Key) {
    && "id" in item && item["id"] == Str(k.id)
    && "createdAt" in item && item["createdAt"] == Str(k.createdAt)
  }

  /** Every stored item carries its own key attributes. */
  ghost predicate KeysMatch(items: map<Key, Item>) {
    forall k :: k in items ==> ItemHasKey(items[k], k)
  }

  /** The attributes besides `status` that PUT copies when the body has them, in the order it tries them. */
  const OptionalFields: seq<string> := ["startDate", "endDate", "priority"]

  /**
   * The attribute values that PUT writes when it considers `fields`:
   * `status` always (from the body, `'Open'` when absent), and each of
   * `fields` that the body has, with the body's value.
   */
  function PatchOver(body: Item, fields: seq<string>): Item {
    map f | f in {"status"} + (set g | g in fields && g in body) ::
      if f == "status" then Get(body, "status", Str("Open")) else body[f]
  }

  /** Considering one more field adds it exactly when the body has it. */
  lemma PatchOverSnoc(body: Item, fields: seq<string>, f: string)
    requires f != "status"
    ensures PatchOver(body, fields + [f]) == if f in body then PatchOver(body, fields)[f := body[f]] else PatchOver(body, fields)
  {
    var big := PatchOver(body, fields + [f]);
    var small := PatchOver(body, fields);
    assert forall g :: g in fields + [f] <==> g in fields || g == f;
    if f in body {
      assert big.Keys == small.Keys + {f};
    } else {
      assert big.Keys == small.Keys;
    }
  }

  /** The attribute values of one PUT. */
  function Patch(body: Item): Item {
    PatchOver(body, OptionalFields)
  }

  /**
   * `update_item` with `SET` on `patch`: the stored item keeps all its other
   * attributes; a key that is not stored yet is created with its key
   * attributes and the patch.
   */
  function Updated(items: map<Key, Item>, key: Key, patch: Item): map<Key, Item> {
    items[key := (if key in items then items[key] else KeyAttrs(key)) + patch]
  }

  /**
   * The key that PUT and DELETE address, or `None` when building it fails:
   * no decodable body, no path id, no `createdAt` in the body, or a
   * `createdAt` that is not a string (the sort key is a string attribute).
   */
  function RequestKey(event: Event): Option<Key> {
    if event.body.None? || event.pathId.None? then None
    else if "createdAt" !in event.body.value || !event.body.value["createdAt"].Str? then None
    else Some(Key(event.pathId.value, event.body.value["createdAt"].s))
  }

  // ----- The table's key schema -----

  /** A value DynamoDB accepts for a string key attribute of the table or of an index: a non-empty string. */
  predicate KeyString(v: Value) {
    v.Str? && v.s != ""
  }

  /** DynamoDB accepts `k` as a primary key: `id` and `createdAt` are string key attributes, so neither may be empty. */
  predicate ValidKey(k: Key) {
    k.id != "" && k.createdAt != ""
  }

  /**
   * The attributes of `item` that key the two global secondary indexes have
   * their declared types: `assigneeId` and `status` non-empty strings,
   * `priority` a number. An absent attribute only leaves the item out of
   * that index.
   */
  predicate IndexKeysTyped(item: Item) {
    && ("assigneeId" in item ==> KeyString(item["assigneeId"]))
    && ("status" in item ==> KeyString(item["status"]))
    && ("priority" in item ==> item["priority"].Int?)
  }

  /** What the table guarantees of every stored issue: a valid key and well-typed index keys. */
  ghost predicate SchemaHolds(items: map<Key, Item>) {
    forall k :: k in items ==> ValidKey(k) && IndexKeysTyped(items[k])
  }

  /** The text of the exception DynamoDB raises for a write that breaks the key schema. */
  const SchemaViolation: string := "ValidationException"

  /**
   * The outcome of one call of the handler on a table holding `items`, and
   * the table afterwards. A write that breaks the key schema raises inside
   * the `try` and answers 500 without writing.
   */
  function Step(items: map<Key, Item>, event: Event): (Outcome, map<Key, Item>) {
    if event.httpMethod == Some("OPTIONS") then (Returned(Preflight), items)
    else if event.httpMethod.None? then (Raised, items)
    else
      var m := event.httpMethod.value;
      if m == "GET" then (Returned(Response(200, Listing(items.Values))), items)
      else if m == "PUT" || m == "DELETE" then
        match RequestKey(event)
        case None => (Returned(ServerError("invalid request")), items)
        case Some(key) =>
          if !ValidKey(key) || (m == "PUT" && !IndexKeysTyped(Patch(event.body.value))) then
            (Returned(ServerError(SchemaViolation)), items)
          else
            var after := if m == "PUT" then Updated(items, key, Patch(event.body.value)) else items - {key};
            (Returned(Response(200, Object(SuccessBody))), after)
      else (ReturnedNone, items)
  }

  /** Builds the attribute values of a PUT the way the handler does, one optional field at a time. */
  method BuildUpdate(body: Item) returns (values: Item)
    ensures values == Patch(body)
  {
    values := map["status" := Get(body, "status", Str("Open"))];
    assert values == PatchOver(body, []);
    var i := 0;
    while i < |OptionalFields|
      invariant 0 <= i <= |OptionalFields|
      invariant values == PatchOver(body, OptionalFields[..i])
    {
      var field := OptionalFields[i];
      assert OptionalFields[..i + 1] == OptionalFields[..i] + [field];
      PatchOverSnoc(body, OptionalFields[..i], field);
      if field in body {
        values := values[field := body[field]];
      }
      i := i + 1;
    }
    assert OptionalFields[..i] == OptionalFields;
  }

  /** The issues table. */
  class IssueTable {
    var items: map<Key, Item>

    ghost predicate Valid()
      reads this
    {
      KeysMatch(items) && SchemaHolds(items)
    }

    constructor ()
      ensures items == map[] && Valid()
    {
      items := map[];
    }

    /** `put_item`: stores `record` under `key`, replacing any item there; `ok` is false when DynamoDB refuses the write. */
    method Put(key: Key, record: Item) returns (ok: bool)
      modifies this
      ensures ok <==> ValidKey(key) && IndexKeysTyped(record)
      ensures items == if ok then old(items)[key := record] else old(items)
    {
      ok := ValidKey(key) && IndexKeysTyped(record);
      if ok {
        items := items[key := record];
      }
    }

    /**
     * `update_item` with `SET` on the attributes of `patch`; `ok` is false
     * when DynamoDB refuses the write. DynamoDB checks the values being set,
     * which on a table satisfying `SchemaHolds` is checking the updated item
     * (`MergeIndexKeysTyped`).
     */
    method Update(key: Key, patch: Item) returns (ok: bool)
      modifies this
      ensures ok <==> ValidKey(key) && IndexKeysTyped(patch)
      ensures items == if ok then Updated(old(items), key, patch) else old(items)
    {
      ok := ValidKey(key) && IndexKeysTyped(patch);
      if ok {
        var base := if key in items then items[key] else KeyAttrs(key);
        items := items[key := base + patch];
      }
    }

    /** `delete_item`; `ok` is false when DynamoDB refuses the key. */
    method Delete(key: Key) returns (ok: bool)
      modifies this
      ensures ok <==> ValidKey(key)
      ensures items == if ok then old(items) - {key} else old(items)
    {
      ok := ValidKey(key);
      if ok {
        items := items - {key};
      }
    }

    /** The Lambda handler of the issues endpoint; it keeps every item's key attributes equal to its key. */
    method Handle(event: Event) returns (r: Outcome)
      requires Valid()
      modifies this
      ensures (r, items) == Step(old(items), event)
      ensures Valid()
    {
      StepKeepsKeysMatch(items, event);
      StepKeepsSchema(items, event);
      if event.httpMethod == Some("OPTIONS") {
        return Returned(Preflight);
      }
      if event.httpMethod.None? {
        return Raised;
      }
      var m := event.httpMethod.value;
      if m == "GET" {
        return Returned(Response(200, Listing(items.Values)));
      } else if m == "PUT" || m == "DELETE" {
        var key := RequestKey(event);
        if key.None? {
          return Returned(ServerError("invalid request"));
        }
        var ok;
        if m == "PUT" {
          var values := BuildUpdate(event.body.value);
          ok := Update(key.value, values);
        } else {
          ok := Delete(key.value);
        }
        if !ok {
          return Returned(ServerError(SchemaViolation));
        }
        return Returned(Response(200, Object(SuccessBody)));
      }
      return ReturnedNone;
    }
  }

  // ----- Properties of the handler -----

  /** PUT writes `status` always, taking `'Open'` when the body has none, and besides it only the optional fields present in the body. */
  lemma PatchContents(body: Item)
    ensures "status" in Patch(body) && Patch(body)["status"] == Get(body, "status", Str("Open"))
    ensures forall f :: f in Patch(body) && f != "status" ==> f in OptionalFields && f in body && Patch(body)[f] == body[f]
    ensures forall f :: f in OptionalFields && f in body ==> f in Patch(body)
  {
  }

  /** The attribute values of a PUT that writes `status` only when the body has one, as a date-only update evidently means. */
  function PatchKeepingStatus(body: Item): Item {
    if "status" in body then Patch(body) else Patch(body) - {"status"}
  }

  /** The corrected patch writes `status` exactly when the body has it, and otherwise writes what `Patch` writes. */
  lemma PatchKeepingStatusContents(body: Item)
    ensures "status" in PatchKeepingStatus(body) <==> "status" in body
    ensures "status" in body ==> PatchKeepingStatus(body)["status"] == body["status"]
    ensures forall f :: f != "status" ==> (f in PatchKeepingStatus(body) <==> f in Patch(body))
    ensures forall f :: f != "status" && f in Patch(body) ==> PatchKeepingStatus(body)[f] == Patch(body)[f]
  {
    PatchContents(body);
  }

  /** A PUT never touches the key attributes of the item it updates. */
  lemma PatchAvoidsKeys(body: Item)
    ensures "id" !in Patch(body) && "createdAt" !in Patch(body)
  {
    assert "id" !in OptionalFields;
    assert "createdAt" !in OptionalFields;
  }

  /** Storing an item that carries its key keeps every item's key attributes. */
  lemma PutKeepsKeysMatch(items: map<Key, Item>, key: Key, record: Item)
    requires KeysMatch(items) && ItemHasKey(record, key)
    ensures KeysMatch(items[key := record])
  {
  }

  /** An update that writes no key attribute keeps every item's key attributes. */
  lemma UpdatedKeepsKeysMatch(items: map<Key, Item>, key: Key, patch: Item)
    requires KeysMatch(items) && "id" !in patch && "createdAt" !in patch
    ensures KeysMatch(Updated(items, key, patch))
  {
    var base := if key in items then items[key] else KeyAttrs(key);
    assert ItemHasKey(base, key);
    assert ItemHasKey(base + patch, key);
  }

  /** Every call keeps each stored item's key attributes equal to its key. */
  lemma StepKeepsKeysMatch(items: map<Key, Item>, event: Event)
    requires KeysMatch(items)
    ensures KeysMatch(Step(items, event).1)
  {
    if event.httpMethod.Some? && event.httpMethod.value == "PUT" && RequestKey(event).Some? {
      PatchAvoidsKeys(event.body.value);
      UpdatedKeepsKeysMatch(items, RequestKey(event).value, Patch(event.body.value));
    }
  }

  /** Writing a patch with well-typed index keys over an item with well-typed index keys gives well-typed index keys, and only such a patch does. */
  lemma MergeIndexKeysTyped(base: Item, patch: Item)
    requires IndexKeysTyped(base)
    ensures IndexKeysTyped(base + patch) <==> IndexKeysTyped(patch)
  {
  }

  /** Every call keeps every stored issue within the key schema. */
  lemma StepKeepsSchema(items: map<Key, Item>, event: Event)
    requires SchemaHolds(items)
    ensures SchemaHolds(Step(items, event).1)
  {
    if event.httpMethod == Some("PUT") && RequestKey(event).Some? {
      var key := RequestKey(event).value;
      var patch := Patch(event.body.value);
      if ValidKey(key) && IndexKeysTyped(patch) {
        var base := if key in items then items[key] else KeyAttrs(key);
        MergeIndexKeysTyped(base, patch);
        assert Step(items, event).1 == items[key := base + patch];
      }
    }
  }

  /**
   * A PUT whose key is accepted by the handler succeeds exactly when the
   * key has no empty part, the body's `status`, if any, is a non-empty
   * string and its `priority`, if any, is a number; otherwise it answers
   * 500 and writes nothing.
   */
  lemma PutAcceptedIff(items: map<Key, Item>, event: Event, key: Key)
    requires event.httpMethod == Some("PUT") && RequestKey(event) == Some(key)
    ensures var body := event.body.value;
      Step(items, event).0 == Returned(Response(200, Object(SuccessBody))) <==>
        && key.id != "" && key.createdAt != ""
        && ("status" in body ==> KeyString(body["status"]))
        && ("priority" in body ==> body["priority"].Int?)
    ensures Step(items, event).0 != Returned(Response(200, Object(SuccessBody))) ==>
      Step(items, event) == (Returned(ServerError(SchemaViolation)), items)
  {
    PatchContents(event.body.value);
  }

  /** A PUT or DELETE whose `createdAt` or path id is the empty string answers 500 and writes nothing. */
  lemma EmptyKeyFails(items: map<Key, Item>, event: Event, key: Key)
    requires event.httpMethod == Some("PUT") || event.httpMethod == Some("DELETE")
    requires RequestKey(event) == Some(key) && (key.id == "" || key.createdAt == "")
    ensures Step(items, event) == (Returned(ServerError(SchemaViolation)), items)
  {
  }

  /** OPTIONS, GET and any method the handler does not serve leave the table as it was; only OPTIONS and GET answer 200 without a write. */
  lemma ReadsChangeNothing(items: map<Key, Item>, event: Event)
    requires event.httpMethod.None? || event.httpMethod.value !in {"PUT", "DELETE"}
    ensures Step(items, event).1 == items
    ensures event.httpMethod == Some("OPTIONS") ==> Step(items, event).0 == Returned(Response(200, Empty))
    ensures event.httpMethod == Some("GET") ==> Step(items, event).0 == Returned(Response(200, Listing(items.Values)))
    ensures event.httpMethod.Some? && event.httpMethod.value !in {"OPTIONS", "GET"} ==> Step(items, event).0 == ReturnedNone
    ensures event.httpMethod.None? ==> Step(items, event).0 == Raised
  {
  }

  /** A PUT or DELETE without a usable `createdAt` answers 500 and writes nothing. */
  lemma MissingCreatedAtFails(items: map<Key, Item>, event: Event)
    requires event.httpMethod == Some("PUT") || event.httpMethod == Some("DELETE")
    requires event.body.Some? && "createdAt" !in event.body.value
    ensures Step(items, event).0.Returned? && Step(items, event).0.response.status == 500
    ensures Step(items, event).1 == items
  {
  }

  /**
   * A successful PUT changes only the addressed item, and in it only the
   * attributes it writes; every other attribute, including an optional
   * field the body lacks, keeps its value. An item not stored yet is
   * created from its key attributes and the written attributes.
   */
  lemma PutChangesOnlyPatchedAttributes(items: map<Key, Item>, event: Event, key: Key)
    requires event.httpMethod == Some("PUT") && RequestKey(event) == Some(key)
    requires ValidKey(key) && IndexKeysTyped(Patch(event.body.value))
    ensures var after := Step(items, event).1; var body := event.body.value;
      && after.Keys == items.Keys + {key}
      && (forall k :: k in items && k != key ==> after[k] == items[k])
      && after[key]["status"] == Get(body, "status", Str("Open"))
      && (forall f :: f in OptionalFields && f in body ==> f in after[key] && after[key][f] == body[f])
      && (key in items ==> forall f :: f !in Patch(body) ==>
            (f in after[key] <==> f in items[key]) && (f in items[key] ==> after[key][f] == items[key][f]))
      && (key !in items ==> after[key] == KeyAttrs(key) + Patch(body))
  {
    PatchContents(event.body.value);
  }

  /** Applying the same PUT twice leaves the table as applying it once. */
  lemma PutIdempotent(items: map<Key, Item>, event: Event)
    requires event.httpMethod == Some("PUT")
    ensures Step(Step(items, event).1, event).1 == Step(items, event).1
  {
    match RequestKey(event)
    case None =>
    case Some(key) =>
      UpdatedIdempotent(items, key, Patch(event.body.value));
  }

  /** Setting the same attributes a second time changes nothing. */
  lemma UpdatedIdempotent(items: map<Key, Item>, key: Key, patch: Item)
    ensures Updated(Updated(items, key, patch), key, patch) == Updated(items, key, patch)
  {
    var base := if key in items then items[key] else KeyAttrs(key);
    var once := Updated(items, key, patch);
    assert once[key] + patch == base + patch;
  }

  /** A successful DELETE removes exactly the addressed item. */
  lemma DeleteRemovesExactly(items: map<Key, Item>, event: Event, key: Key)
    requires event.httpMethod == Some("DELETE") && RequestKey(event) == Some(key) && ValidKey(key)
    ensures var after := Step(items, event).1;
      && key !in after && after.Keys == items.Keys - {key}
      && (forall k :: k in after ==> after[k] == items[k])
      && Step(items, event).0 == Returned(Response(200, Object(SuccessBody)))
  {
  }
}
