/**
 * The chat intake: the language model's reply is searched for the first
 * brace-delimited span that holds the keys "title", "assignee", "startDate"
 * and "endDate" in that order, the span is decoded, and a task with those
 * four values is written to the issues table. The model call is a
 * parameter: `Some(text)` for its reply, `None` for any failure of the call
 * or of reading its response envelope.
 */
module Chat {
  import opened Wrappers
  import opened Values
  import opened Strings
  import FlatJson
  import Issues

  // ----- Locating the object in the reply -----

  /** The quoted keys that the pattern looks for, in the order it wants them. */
  const QuotedKeys: seq<string> := ["\"title\"", "\"assignee\"", "\"startDate\"", "\"endDate\""]

  predicate IsBrace(c: char) {
    c == '{' || c == '}'
  }

  /** The words `ws` occur in `t` one after another, without overlapping. */
  ghost predicate InOrder(t: string, ws: seq<string>)
    decreases |ws|
  {
    ws == [] || exists p :: OccursAt(t, ws[0], p) && InOrder(t[p + |ws[0]|..], ws[1..])
  }

  /** Decides `InOrder` by taking the first occurrence of each word in turn. */
  function FindInOrder(t: string, ws: seq<string>): bool
    decreases |ws|
  {
    if ws == [] then true
    else match IndexOf(t, ws[0])
      case None => false
      case Some(p) => FindInOrder(t[p + |ws[0]|..], ws[1..])
  }

  /** Words that occur in order in a suffix of `u` occur in order in `u`. */
  lemma InOrderInSuffix(u: string, d: nat, ws: seq<string>)
    requires d <= |u| && InOrder(u[d..], ws)
    ensures InOrder(u, ws)
  {
    if ws != [] {
      var p :| OccursAt(u[d..], ws[0], p) && InOrder(u[d..][p + |ws[0]|..], ws[1..]);
      assert u[d..][p..p + |ws[0]|] == u[d + p..d + p + |ws[0]|];
      assert u[d..][p + |ws[0]|..] == u[d + p + |ws[0]|..];
      assert OccursAt(u, ws[0], d + p);
    }
  }

  /** An occurrence of the first word followed by the rest in order is an in-order occurrence. */
  lemma InOrderAt(t: string, ws: seq<string>, q: nat)
    requires ws != [] && OccursAt(t, ws[0], q) && InOrder(t[q + |ws[0]|..], ws[1..])
    ensures InOrder(t, ws)
  {
  }

  /** When the words occur in order, the rest occur in order after the first occurrence of the first word. */
  lemma InOrderAfterFirst(t: string, ws: seq<string>, q: nat)
    requires ws != [] && InOrder(t, ws) && IndexOf(t, ws[0]) == Some(q)
    ensures InOrder(t[q + |ws[0]|..], ws[1..])
  {
    var w := ws[0];
    var p :| OccursAt(t, w, p) && InOrder(t[p + |w|..], ws[1..]);
    assert q <= p;
    assert t[q + |w|..][p - q..] == t[p + |w|..];
    InOrderInSuffix(t[q + |w|..], p - q, ws[1..]);
  }

  /** Taking the first occurrence of each word never misses an in-order occurrence. */
  lemma {:induction false} FindInOrderCorrect(t: string, ws: seq<string>)
    ensures FindInOrder(t, ws) <==> InOrder(t, ws)
    decreases |ws|
  {
    if ws != [] {
      match IndexOf(t, ws[0])
      case None =>
      case Some(q) =>
        FindInOrderCorrect(t[q + |ws[0]|..], ws[1..]);
        if FindInOrder(t, ws) {
          InOrderAt(t, ws, q);
        }
        if InOrder(t, ws) {
          InOrderAfterFirst(t, ws, q);
        }
    }
  }

  /** The first brace in `s` at or after `from`. */
  function NextBrace(s: string, from: nat): (r: Option<nat>)
    decreases |s| - from
    ensures r.Some? ==> from <= r.value < |s| && IsBrace(s[r.value])
    ensures r.Some? ==> forall k :: from <= k < r.value ==> !IsBrace(s[k])
    ensures r.None? ==> forall k :: from <= k < |s| ==> !IsBrace(s[k])
  {
    if from >= |s| then None
    else if IsBrace(s[from]) then Some(from)
    else NextBrace(s, from + 1)
  }

  /**
   * The pattern `\{[^{}]*"title"[^{}]*"assignee"[^{}]*"startDate"[^{}]*"endDate"[^{}]*\}`
   * matches `s[i..j + 1]`: an opening brace, no brace in between, a closing
   * brace, and the quoted keys in order inside.
   */
  ghost predicate MatchAt(s: string, keys: seq<string>, i: int, j: int) {
    && 0 <= i < j < |s| && s[i] == '{' && s[j] == '}'
    && (forall k :: i < k < j ==> !IsBrace(s[k]))
    && InOrder(s[i + 1..j], keys)
  }

  /** The end of the match that starts at `i`, if one does; there is at most one. */
  function MatchFrom(s: string, keys: seq<string>, i: nat): (r: Option<nat>)
    requires i < |s|
    ensures r.Some? ==> MatchAt(s, keys, i, r.value)
    ensures forall j :: MatchAt(s, keys, i, j) ==> r == Some(j)
  {
    if s[i] != '{' then None
    else match NextBrace(s, i + 1)
      case None => None
      case Some(j) =>
        FindInOrderCorrect(s[i + 1..j], keys);
        if s[j] == '}' && FindInOrder(s[i + 1..j], keys) then Some(j) else None
  }

  /** `re.search` from position `from`: the leftmost start with a match, and the end of that match. */
  function SearchFrom(s: string, keys: seq<string>, from: nat): (r: Option<(nat, nat)>)
    decreases |s| - from
    ensures r.Some? ==> from <= r.value.0 < |s| && MatchFrom(s, keys, r.value.0) == Some(r.value.1)
    ensures r.Some? ==> forall i :: from <= i < r.value.0 ==> MatchFrom(s, keys, i).None?
    ensures r.None? ==> forall i :: from <= i < |s| ==> MatchFrom(s, keys, i).None?
  {
    if from >= |s| then None
    else match MatchFrom(s, keys, from)
      case Some(j) => Some((from, j))
      case None => SearchFrom(s, keys, from + 1)
  }

  /** The text of the leftmost match of the pattern for `keys`, if any. */
  function ExtractWith(reply: string, keys: seq<string>): Option<string> {
    match SearchFrom(reply, keys, 0)
    case None => None
    case Some((i, j)) => Some(reply[i..j + 1])
  }

  /** `json_match.group()`: the text of the leftmost match, or `None` when the reply has no match. */
  function Extract(reply: string): Option<string> {
    ExtractWith(reply, QuotedKeys)
  }

  /** Nothing is extracted exactly when the pattern matches nowhere in the reply. */
  lemma ExtractNoneIffNoMatch(reply: string, keys: seq<string>)
    ensures ExtractWith(reply, keys).None? <==> forall i, j :: !MatchAt(reply, keys, i, j)
  {
    var r := SearchFrom(reply, keys, 0);
    if r.Some? {
      assert MatchAt(reply, keys, r.value.0, r.value.1);
    } else {
      forall i, j | 0 <= i < |reply|
        ensures !MatchAt(reply, keys, i, j)
      {
        assert MatchFrom(reply, keys, i).None?;
      }
    }
  }

  /** The extracted text is the leftmost match, from its opening to its closing brace. */
  lemma ExtractIsLeftmostMatch(reply: string, keys: seq<string>, i: nat, j: nat)
    requires MatchAt(reply, keys, i, j)
    requires forall i', j' :: MatchAt(reply, keys, i', j') ==> i <= i'
    ensures ExtractWith(reply, keys) == Some(reply[i..j + 1])
  {
    var r := SearchFrom(reply, keys, 0);
    assert MatchFrom(reply, keys, i) == Some(j);
    assert r.Some?;
    var i0, j0 := r.value.0, r.value.1;
    assert MatchAt(reply, keys, i0, j0);
    assert i0 == i;
  }

  /**
   * `parse_with_bedrock` given the model's reply: the decoded matched span,
   * or `None` when the call failed, nothing matched, or the span does not
   * decode. No failure escapes.
   */
  function ParseReply(reply: Option<string>): (r: Option<map<string, string>>)
    ensures reply.None? ==> r.None?
    ensures reply.Some? && (forall i, j :: !MatchAt(reply.value, QuotedKeys, i, j)) ==> r.None?
    ensures r.Some? ==> reply.Some? && Extract(reply.value).Some?
    ensures reply.Some? && Extract(reply.value).Some? ==> r == FlatJson.Decode(Extract(reply.value).value)
  {
    match reply
    case None => None
    case Some(text) =>
      ExtractNoneIffNoMatch(text, QuotedKeys);
      match Extract(text)
      case None => None
      case Some(span) => FlatJson.Decode(span)
  }

  /** When the reply has a match, the parsed reply is the decoding of the leftmost match's text, braces included. */
  lemma ParseReplyDecodesLeftmostMatch(reply: string, i: nat, j: nat)
    requires MatchAt(reply, QuotedKeys, i, j)
    requires forall i', j' :: MatchAt(reply, QuotedKeys, i', j') ==> i <= i'
    ensures ParseReply(Some(reply)) == FlatJson.Decode(reply[i..j + 1])
  {
    ExtractIsLeftmostMatch(reply, QuotedKeys, i, j);
  }

  // ----- The handler -----

  /** The keys that the handler requires of the parsed reply. */
  const RequiredKeys: seq<string> := ["title", "assignee", "startDate", "endDate"]

  /** The parsed reply is usable: present and holding the four keys. Their values are not checked. */
  predicate Accepts(parsed: Option<map<string, string>>) {
    parsed.Some? && forall k :: k in RequiredKeys ==> k in parsed.value
  }

  /** `{'Low': 1, 'Medium': 2, 'High': 3}.get(priority, 2)`. */
  function PriorityRank(priority: Value): (n: int)
    ensures 1 <= n <= 3
    ensures n == 1 <==> priority == Str("Low")
    ensures n == 3 <==> priority == Str("High")
  {
    if priority == Str("Low") then 1
    else if priority == Str("High") then 3
    else 2
  }

  /** A value that can be looked up in a dict: a list or a dict as `priority` makes the lookup raise. */
  predicate Hashable(v: Value) {
    !v.Arr? && !v.Obj?
  }

  /** The record that the handler stores for an accepted reply. */
  function Record(body: Item, parsed: map<string, string>, id: string, now: string): Item
    requires forall k :: k in RequiredKeys ==> k in parsed
  {
    map[
      "id" := Str(id),
      "createdAt" := Str(now),
      "title" := Str(parsed["title"]),
      "description" := Get(body, "message", Str("")),
      "priority" := Int(PriorityRank(Get(body, "priority", Str("Medium")))),
      "status" := Str("Open"),
      "assigneeId" := Str(parsed["assignee"]),
      "startDate" := Str(parsed["startDate"]),
      "endDate" := Str(parsed["endDate"]),
      "projectId" := Get(body, "projectId", Str("default"))
    ]
  }

  /** The 400 answer for a reply that could not be parsed. */
  const Rejection: Response := Response(400, Object(map["success" := Bool(false), "message" := Str("Failed to parse task")]))

  /**
   * The response of one call of the handler and the issues table afterwards.
   * `reply` is the model's reply, `id` stands for `uuid.uuid4()` and `now`
   * for the current UTC time in ISO format.
   */
  function Step(items: map<Issues.Key, Item>, event: Event, reply: Option<string>, id: string, now: string): (Response, map<Issues.Key, Item>) {
    if event.httpMethod == Some("OPTIONS") then (Preflight, items)
    else if event.body.None? then (ServerError("invalid request"), items)
    else
      var parsed := ParseReply(reply);
      if !Accepts(parsed) then (Rejection, items)
      else if !Hashable(Get(event.body.value, "priority", Str("Medium"))) then (ServerError("unhashable type"), items)
      else
        var key := Issues.Key(id, now);
        var record := Record(event.body.value, parsed.value, id, now);
        if !Issues.ValidKey(key) || !Issues.IndexKeysTyped(record) then (ServerError(Issues.SchemaViolation), items)
        else (Response(200, Object(map["success" := Bool(true), "issueId" := Str(id)])), items[key := record])
  }

  /** The Lambda handler of the chat endpoint, writing to `table`; it keeps every item's key attributes equal to its key. */
  method Handle(table: Issues.IssueTable, event: Event, reply: Option<string>, id: string, now: string) returns (r: Response)
    requires table.Valid()
    modifies table
    ensures (r, table.items) == Step(old(table.items), event, reply, id, now)
    ensures table.Valid()
  {
    StepKeepsKeysMatch(table.items, event, reply, id, now);
    StepKeepsSchema(table.items, event, reply, id, now);
    if event.httpMethod == Some("OPTIONS") {
      return Preflight;
    }
    if event.body.None? {
      return ServerError("invalid request");
    }
    var body := event.body.value;
    var parsed := ParseReply(reply);
    if !Accepts(parsed) {
      return Rejection;
    }
    if !Hashable(Get(body, "priority", Str("Medium"))) {
      return ServerError("unhashable type");
    }
    var item := Record(body, parsed.value, id, now);
    var ok := table.Put(Issues.Key(id, now), item);
    if !ok {
      return ServerError(Issues.SchemaViolation);
    }
    return Response(200, Object(map["success" := Bool(true), "issueId" := Str(id)]));
  }

  // ----- Properties of the handler -----

  /** OPTIONS answers 200 with an empty body and writes nothing. */
  lemma PreflightWritesNothing(items: map<Issues.Key, Item>, event: Event, reply: Option<string>, id: string, now: string)
    requires event.httpMethod == Some("OPTIONS")
    ensures Step(items, event, reply, id, now) == (Response(200, Empty), items)
  {
  }

  /**
   * A failed model call, a reply without a match, a span that does not
   * decode, or a decoded object missing one of the four keys: the answer is
   * 400 with `success` false and nothing is written.
   */
  lemma RejectedWritesNothing(items: map<Issues.Key, Item>, event: Event, reply: Option<string>, id: string, now: string)
    requires event.httpMethod != Some("OPTIONS") && event.body.Some?
    requires !Accepts(ParseReply(reply))
    ensures Step(items, event, reply, id, now).1 == items
    ensures var resp := Step(items, event, reply, id, now).0;
      resp.status == 400 && resp.body.Object? && resp.body.fields["success"] == Bool(false)
  {
  }

  /** A failed model call is never an error of the handler: it is a 400 rejection. */
  lemma ModelFailureIsRejection(items: map<Issues.Key, Item>, event: Event, id: string, now: string)
    requires event.httpMethod != Some("OPTIONS") && event.body.Some?
    ensures Step(items, event, None, id, now) == (Rejection, items)
  {
  }

  /** The stored record carries its own key. */
  lemma RecordHasKey(body: Item, parsed: map<string, string>, id: string, now: string)
    requires forall k :: k in RequiredKeys ==> k in parsed
    ensures Issues.ItemHasKey(Record(body, parsed, id, now), Issues.Key(id, now))
  {
  }

  /** The stored record copies the four values of the parsed reply, unchecked. */
  lemma RecordCopiesReply(body: Item, parsed: map<string, string>, id: string, now: string)
    requires forall k :: k in RequiredKeys ==> k in parsed
    ensures var r := Record(body, parsed, id, now);
      && "title" in r && r["title"] == Str(parsed["title"])
      && "assigneeId" in r && r["assigneeId"] == Str(parsed["assignee"])
      && "startDate" in r && r["startDate"] == Str(parsed["startDate"])
      && "endDate" in r && r["endDate"] == Str(parsed["endDate"])
  {
  }

  /**
   * The stored record has the message verbatim as description, status
   * Open, the mapped priority and the project from the body or 'default'.
   */
  lemma RecordFromBody(body: Item, parsed: map<string, string>, id: string, now: string)
    requires forall k :: k in RequiredKeys ==> k in parsed
    ensures var r := Record(body, parsed, id, now);
      && "description" in r && r["description"] == (if "message" in body then body["message"] else Str(""))
      && "status" in r && r["status"] == Str("Open")
      && "priority" in r && r["priority"] == Int(PriorityRank(Get(body, "priority", Str("Medium"))))
      && "projectId" in r && r["projectId"] == (if "projectId" in body then body["projectId"] else Str("default"))
  {
  }

  /** The key parts and the reply's assignee are non-empty, as the table's key schema needs of the stored record. */
  predicate Storable(parsed: map<string, string>, id: string, now: string) {
    id != "" && now != "" && "assignee" in parsed && parsed["assignee"] != ""
  }

  /** The stored record's index keys are well typed exactly when the reply's assignee is not empty. */
  lemma RecordIndexKeysTyped(body: Item, parsed: map<string, string>, id: string, now: string)
    requires forall k :: k in RequiredKeys ==> k in parsed
    ensures Issues.IndexKeysTyped(Record(body, parsed, id, now)) <==> parsed["assignee"] != ""
  {
    var r := Record(body, parsed, id, now);
    assert r["assigneeId"] == Str(parsed["assignee"]);
    assert r["status"] == Str("Open") && r["priority"].Int?;
  }

  /**
   * An accepted reply with an empty assignee, or an empty id or time,
   * breaks the table's key schema: `put_item` raises, the answer is 500 and
   * nothing is written.
   */
  lemma UnstorableRecordFails(items: map<Issues.Key, Item>, event: Event, reply: Option<string>, id: string, now: string)
    requires event.httpMethod != Some("OPTIONS") && event.body.Some?
    requires Accepts(ParseReply(reply)) && Hashable(Get(event.body.value, "priority", Str("Medium")))
    requires !Storable(ParseReply(reply).value, id, now)
    ensures Step(items, event, reply, id, now) == (ServerError(Issues.SchemaViolation), items)
  {
    RecordIndexKeysTyped(event.body.value, ParseReply(reply).value, id, now);
  }

  /** An accepted reply with a non-empty assignee writes exactly one record, under (id, now), and answers 200 with that id. */
  lemma AcceptedWritesOneRecord(items: map<Issues.Key, Item>, event: Event, reply: Option<string>, id: string, now: string)
    requires event.httpMethod != Some("OPTIONS") && event.body.Some?
    requires Accepts(ParseReply(reply)) && Hashable(Get(event.body.value, "priority", Str("Medium")))
    requires Storable(ParseReply(reply).value, id, now)
    ensures Step(items, event, reply, id, now).1 == items[Issues.Key(id, now) := Record(event.body.value, ParseReply(reply).value, id, now)]
    ensures Step(items, event, reply, id, now).0 == Response(200, Object(map["success" := Bool(true), "issueId" := Str(id)]))
  {
    RecordIndexKeysTyped(event.body.value, ParseReply(reply).value, id, now);
  }

  /** The handler keeps every stored item's key attributes equal to its key. */
  lemma StepKeepsKeysMatch(items: map<Issues.Key, Item>, event: Event, reply: Option<string>, id: string, now: string)
    requires Issues.KeysMatch(items)
    ensures Issues.KeysMatch(Step(items, event, reply, id, now).1)
  {
    var parsed := ParseReply(reply);
    if event.httpMethod != Some("OPTIONS") && event.body.Some? && Accepts(parsed) {
      var record := Record(event.body.value, parsed.value, id, now);
      RecordHasKey(event.body.value, parsed.value, id, now);
      Issues.PutKeepsKeysMatch(items, Issues.Key(id, now), record);
    }
  }

  /** The handler keeps every stored issue within the table's key schema. */
  lemma StepKeepsSchema(items: map<Issues.Key, Item>, event: Event, reply: Option<string>, id: string, now: string)
    requires Issues.SchemaHolds(items)
    ensures Issues.SchemaHolds(Step(items, event, reply, id, now).1)
  {
  }

  /** The priority label map: Low 1, Medium 2, High 3, and 2 for any other label; a missing label is 'Medium'. */
  lemma PriorityLabels(body: Item)
    ensures PriorityRank(Str("Low")) == 1 && PriorityRank(Str("Medium")) == 2 && PriorityRank(Str("High")) == 3
    ensures "priority" !in body ==> PriorityRank(Get(body, "priority", Str("Medium"))) == 2
  {
  }
}
