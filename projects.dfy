/**
 * The projects endpoint: GET lists the projects (a default project when
 * there are none), POST creates a project, PUT renames one. The table is a
 * map from the partition key `id` to the stored item.
 */
module Projects {
  import opened Wrappers
  import opened Values

  /** Every stored project carries its own id. */
  ghost predicate IdsMatch(items: map<string, Item>) {
    forall id :: id in items ==> "id" in items[id] && items[id]["id"] == Str(id)
  }

  /** The project that GET answers with when the table is empty; it is not stored. */
  function DefaultProject(now: string): Item {
    map["id" := Str("default"), "name" := Str("Default Project"), "createdAt" := Str(now)]
  }

  /** The projects that GET lists: the stored ones, or the default project alone when none is stored. */
  function Listed(items: map<string, Item>, now: string): set<Item> {
    if |items| == 0 then {DefaultProject(now)} else items.Values
  }

  /** The item that POST stores. */
  function NewProject(id: string, name: Value, now: string): Item {
    map["id" := Str(id), "name" := name, "createdAt" := Str(now)]
  }

  /** `update_item` that sets `name`; a project that is not stored yet is created with its id and the name. */
  function Renamed(items: map<string, Item>, id: string, name: Value): map<string, Item> {
    items[id := (if id in items then items[id] else map["id" := Str(id)])["name" := name]]
  }

  /**
   * The outcome of one call of the handler on a table holding `items`, and
   * the table afterwards. `freshId` stands for `uuid.uuid4()` and `now` for
   * the current UTC time in ISO format.
   */
  function Step(items: map<string, Item>, event: Event, freshId: string, now: string): (Outcome, map<string, Item>) {
    if event.httpMethod == Some("OPTIONS") then (Returned(Preflight), items)
    else if event.httpMethod.None? then (Raised, items)
    else
      var m := event.httpMethod.value;
      if m == "GET" then (Returned(Response(200, Listing(Listed(items, now)))), items)
      else if m == "POST" then
        if event.body.None? || "name" !in event.body.value then (Returned(ServerError("invalid request")), items)
        else
          (Returned(Response(200, Object(map["success" := Bool(true), "id" := Str(freshId)]))),
           items[freshId := NewProject(freshId, event.body.value["name"], now)])
      else if m == "PUT" then
        if event.body.None? || event.pathId.None? || "name" !in event.body.value then (Returned(ServerError("invalid request")), items)
        else (Returned(Response(200, Object(SuccessBody))), Renamed(items, event.pathId.value, event.body.value["name"]))
      else (ReturnedNone, items)
  }

  /** The projects table. */
  class ProjectTable {
    var items: map<string, Item>

    ghost predicate Valid()
      reads this
    {
      IdsMatch(items)
    }

    constructor ()
      ensures items == map[] && Valid()
    {
      items := map[];
    }

    /** `put_item`: stores `record` under `id`, replacing any item there. */
    method Put(id: string, record: Item)
      modifies this
      ensures items == old(items)[id := record]
    {
      items := items[id := record];
    }

    /** `update_item` with `SET #name = :name`. */
    method SetName(id: string, name: Value)
      modifies this
      ensures items == Renamed(old(items), id, name)
    {
      var base := if id in items then items[id] else map["id" := Str(id)];
      items := items[id := base["name" := name]];
    }

    /** The Lambda handler of the projects endpoint; it keeps every project's `id` attribute equal to its key. */
    method Handle(event: Event, freshId: string, now: string) returns (r: Outcome)
      requires Valid()
      modifies this
      ensures (r, items) == Step(old(items), event, freshId, now)
      ensures Valid()
    {
      StepKeepsIdsMatch(items, event, freshId, now);
      if event.httpMethod == Some("OPTIONS") {
        return Returned(Preflight);
      }
      if event.httpMethod.None? {
        return Raised;
      }
      var m := event.httpMethod.value;
      if m == "GET" {
        var projects := if |items| == 0 then {DefaultProject(now)} else items.Values;
        return Returned(Response(200, Listing(projects)));
      } else if m == "POST" {
        if event.body.None? || "name" !in event.body.value {
          return Returned(ServerError("invalid request"));
        }
        Put(freshId, NewProject(freshId, event.body.value["name"], now));
        return Returned(Response(200, Object(map["success" := Bool(true), "id" := Str(freshId)])));
      } else if m == "PUT" {
        if event.body.None? || event.pathId.None? || "name" !in event.body.value {
          return Returned(ServerError("invalid request"));
        }
        SetName(event.pathId.value, event.body.value["name"]);
        return Returned(Response(200, Object(SuccessBody)));
      }
      return ReturnedNone;
    }
  }

  // ----- Properties of the handler -----

  /** Every call keeps each stored project's `id` attribute equal to its key. */
  lemma StepKeepsIdsMatch(items: map<string, Item>, event: Event, freshId: string, now: string)
    requires IdsMatch(items)
    ensures IdsMatch(Step(items, event, freshId, now).1)
  {
  }

  /** GET on an empty table lists exactly the default project and stores nothing. */
  lemma GetEmptyListsDefault(items: map<string, Item>, event: Event, freshId: string, now: string)
    requires event.httpMethod == Some("GET") && items == map[]
    ensures Step(items, event, freshId, now) == (Returned(Response(200, Listing({DefaultProject(now)}))), map[])
  {
  }

  /** GET on a non-empty table lists exactly the stored projects and changes nothing. */
  lemma GetListsStored(items: map<string, Item>, event: Event, freshId: string, now: string)
    requires event.httpMethod == Some("GET") && items != map[]
    ensures Step(items, event, freshId, now) == (Returned(Response(200, Listing(items.Values))), items)
  {
    var id :| id in items;
    assert |items| != 0;
  }

  /** Storing under a key that is not there yet adds exactly one entry. */
  lemma InsertFresh(items: map<string, Item>, id: string, record: Item)
    requires id !in items
    ensures var after := items[id := record];
      && after.Keys == items.Keys + {id} && |after| == |items| + 1
      && forall other :: other in items ==> after[other] == items[other]
  {
    assert items[id := record].Keys == items.Keys + {id};
  }

  /**
   * POST with a fresh id adds exactly one project, carrying the body's name
   * and that id, leaves the others as they were and answers with the id.
   */
  lemma PostAddsOne(items: map<string, Item>, event: Event, freshId: string, now: string)
    requires event.httpMethod == Some("POST") && event.body.Some? && "name" in event.body.value
    requires freshId !in items
    ensures var after := Step(items, event, freshId, now).1;
      && after.Keys == items.Keys + {freshId} && |after| == |items| + 1
      && (forall id :: id in items ==> after[id] == items[id])
      && after[freshId] == NewProject(freshId, event.body.value["name"], now)
    ensures Step(items, event, freshId, now).0 == Returned(Response(200, Object(map["success" := Bool(true), "id" := Str(freshId)])))
  {
    var record := NewProject(freshId, event.body.value["name"], now);
    assert Step(items, event, freshId, now).1 == items[freshId := record];
    InsertFresh(items, freshId, record);
  }

  /** PUT changes only the name of the addressed project; its other attributes and all other projects stay. */
  lemma PutRenamesOnly(items: map<string, Item>, event: Event, freshId: string, now: string)
    requires event.httpMethod == Some("PUT") && event.body.Some? && event.pathId.Some? && "name" in event.body.value
    ensures var after := Step(items, event, freshId, now).1;
      var id := event.pathId.value;
      && after.Keys == items.Keys + {id}
      && (forall other :: other in items && other != id ==> after[other] == items[other])
      && after[id]["name"] == event.body.value["name"]
      && (id in items ==> forall f :: f != "name" ==> (f in after[id] <==> f in items[id]) && (f in items[id] ==> after[id][f] == items[id][f]))
  {
  }

  /** POST or PUT without a `name` in the body answers 500 and writes nothing. */
  lemma MissingNameFails(items: map<string, Item>, event: Event, freshId: string, now: string)
    requires event.httpMethod == Some("POST") || event.httpMethod == Some("PUT")
    requires event.body.Some? && "name" !in event.body.value
    ensures Step(items, event, freshId, now).0.Returned?
    ensures Step(items, event, freshId, now).0.response.status == 500
    ensures Step(items, event, freshId, now).1 == items
  {
  }

  /** OPTIONS answers 200 with an empty body and does not touch the table; other unserved methods return nothing. */
  lemma OtherMethodsChangeNothing(items: map<string, Item>, event: Event, freshId: string, now: string)
    requires event.httpMethod.Some? && event.httpMethod.value !in {"GET", "POST", "PUT"}
    ensures Step(items, event, freshId, now).1 == items
    ensures Step(items, event, freshId, now).0 == if event.httpMethod.value == "OPTIONS" then Returned(Response(200, Empty)) else ReturnedNone
  {
  }
}
