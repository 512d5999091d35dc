/**
 * The chat page's send button: the guard on the input, the body it posts to
 * the chat endpoint (which differs between the two page scripts), and the
 * assistant line it appends for the endpoint's answer.
 */
module ChatClient {
  import opened Wrappers
  import opened Values
  import Strings
  import Chat

  /** The template the input is reset to after each send. */
  const ResetInput: string := "タイトル：\n担当：\n期間："

  /** `!input.trim() || !selectedProject` is false: there is text besides whitespace and a project is selected. */
  predicate ShouldSend(input: string, selectedProject: string) {
    Strings.Trim(input) != "" && selectedProject != ""
  }

  /** A request goes out exactly when the input holds a character that is not whitespace and a project is selected. */
  lemma SendGuard(input: string, selectedProject: string)
    ensures ShouldSend(input, selectedProject)
      <==> (exists k :: 0 <= k < |input| && !Strings.IsSpace(input[k])) && selectedProject != ""
  {
    Strings.TrimEmptyIffAllSpace(input);
  }

  /** The reset template is not blank: sending it unchanged does post a request. */
  lemma ResetInputIsSent(selectedProject: string)
    requires selectedProject != ""
    ensures ShouldSend(ResetInput, selectedProject)
  {
    Strings.TrimEmptyIffAllSpace(ResetInput);
    assert !Strings.IsSpace(ResetInput[0]);
  }

  /** The two page scripts. */
  datatype Script = PageScript | CompiledScript

  /** The body `app.js` posts: the text inside a one-element `messages` list. */
  function PageRequestBody(message: string, priority: string, projectId: string): Item {
    map[
      "messages" := Arr([Obj(map["role" := Str("user"), "content" := Str(message)])]),
      "priority" := Str(priority),
      "projectId" := Str(projectId)
    ]
  }

  /** The body `app.compiled.js` posts: the text under `message`. */
  function CompiledRequestBody(message: string, priority: string, projectId: string): Item {
    map["message" := Str(message), "priority" := Str(priority), "projectId" := Str(projectId)]
  }

  /** The body the given script posts. */
  function RequestBody(script: Script, message: string, priority: string, projectId: string): Item {
    match script
    case PageScript => PageRequestBody(message, priority, projectId)
    case CompiledScript => CompiledRequestBody(message, priority, projectId)
  }

  /**
   * As written in `app.js`: the body has no `message`, so the endpoint
   * puts an empty input line into the prompt for the language model and
   * stores an empty description, whatever was typed.
   */
  lemma PageMessageLost(message: string, priority: string, projectId: string, parsed: map<string, string>, id: string, now: string)
    requires forall k :: k in Chat.RequiredKeys ==> k in parsed
    ensures Get(PageRequestBody(message, priority, projectId), "message", Str("")) == Str("")
    ensures var r := Chat.Record(PageRequestBody(message, priority, projectId), parsed, id, now);
      "description" in r && r["description"] == Str("")
  {
  }

  /**
   * With the body of `app.compiled.js` the endpoint sees the typed text: it
   * is the model's input and is stored as the description; the project and
   * the priority arrive with either body.
   */
  lemma CompiledMessageKept(script: Script, message: string, priority: string, projectId: string, parsed: map<string, string>, id: string, now: string)
    requires forall k :: k in Chat.RequiredKeys ==> k in parsed
    ensures Get(CompiledRequestBody(message, priority, projectId), "message", Str("")) == Str(message)
    ensures var r := Chat.Record(CompiledRequestBody(message, priority, projectId), parsed, id, now);
      "description" in r && r["description"] == Str(message)
    ensures var r := Chat.Record(RequestBody(script, message, priority, projectId), parsed, id, now);
      && "projectId" in r && r["projectId"] == Str(projectId)
      && "priority" in r && r["priority"] == Int(Chat.PriorityRank(Str(priority)))
  {
  }

  // ----- The assistant's answer -----

  /** JavaScript truthiness of a property that may be missing. */
  predicate Truthy(v: Option<Value>) {
    match v
    case None => false
    case Some(Str(s)) => s != ""
    case Some(Int(n)) => n != 0
    case Some(Bool(b)) => b
    case Some(_) => true
  }

  /** A property of the decoded answer. */
  function Field(data: Item, key: string): (v: Option<Value>)
    ensures v.Some? <==> key in data
  {
    if key in data then Some(data[key]) else None
  }

  const FallbackText: string := "Sorry, I could not process that request."
  const FailureText: string := "Error processing request."

  /** `'Task #' + issueId.slice(-8) + ' created successfully!'`. */
  function SuccessText(issueId: string): (text: string)
    ensures var n := if |issueId| < 8 then |issueId| else 8;
      |text| == 28 + n && text[6..6 + n] == issueId[|issueId| - n..]
  {
    "Task #" + Strings.Last(issueId, 8) + " created successfully!"
  }

  /**
   * The content of the assistant line for the decoded answer, `None` when
   * the request or the decoding failed: the success text when `success`
   * and `issueId` are truthy, otherwise the first truthy of `message` and
   * `error`, otherwise the fallback text.
   */
  function AssistantContent(data: Option<Item>): Value {
    match data
    case None => Str(FailureText)
    case Some(d) =>
      if Truthy(Field(d, "success")) && Truthy(Field(d, "issueId")) then
        match d["issueId"]
        case Str(id) => Str(SuccessText(id))
        case _ => Str(FailureText)
      else if Truthy(Field(d, "message")) then d["message"]
      else if Truthy(Field(d, "error")) then d["error"]
      else Str(FallbackText)
  }

  /** The example of the end-to-end test: id 'test-12345678' is shown as task #12345678. */
  lemma SuccessTextExample()
    ensures AssistantContent(Some(SuccessAnswer("test-12345678"))) == Str("Task #" + "12345678" + " created successfully!")
  {
    var id := "test-12345678";
    SuccessAnswerShown(id);
    assert Strings.Last(id, 8) == id[5..] == "12345678";
  }

  /** For a request body that could not be read, the page shows the endpoint's error text. */
  lemma InvalidBodyShown(items: map<Chat.Issues.Key, Item>, event: Event, reply: Option<string>, id: string, now: string)
    requires event.httpMethod != Some("OPTIONS") && event.body.None?
    ensures var response := Chat.Step(items, event, reply, id, now).0;
      response.body.Object? && AssistantContent(Some(response.body.fields)) == Str("invalid request")
  {
    assert Chat.Step(items, event, reply, id, now).0 == ServerError("invalid request");
    ErrorShown("invalid request");
  }

  /** For a reply that could not be parsed, the page shows the endpoint's rejection message. */
  lemma RejectionShown(items: map<Chat.Issues.Key, Item>, event: Event, reply: Option<string>, id: string, now: string)
    requires event.httpMethod != Some("OPTIONS") && event.body.Some?
    requires !Chat.Accepts(Chat.ParseReply(reply))
    ensures var response := Chat.Step(items, event, reply, id, now).0;
      response.body.Object? && AssistantContent(Some(response.body.fields)) == Str("Failed to parse task")
  {
    assert Chat.Step(items, event, reply, id, now).0 == Chat.Rejection;
    RejectionMessageShown();
  }

  /** For a list or an object sent as priority, the page shows the endpoint's error text. */
  lemma UnhashableShown(items: map<Chat.Issues.Key, Item>, event: Event, reply: Option<string>, id: string, now: string)
    requires event.httpMethod != Some("OPTIONS") && event.body.Some?
    requires Chat.Accepts(Chat.ParseReply(reply)) && !Chat.Hashable(Get(event.body.value, "priority", Str("Medium")))
    ensures var response := Chat.Step(items, event, reply, id, now).0;
      response.body.Object? && AssistantContent(Some(response.body.fields)) == Str("unhashable type")
  {
    assert Chat.Step(items, event, reply, id, now).0 == ServerError("unhashable type");
    ErrorShown("unhashable type");
  }

  /** For a record the table refuses, the page shows the endpoint's error text. */
  lemma SchemaViolationShown(items: map<Chat.Issues.Key, Item>, event: Event, reply: Option<string>, id: string, now: string)
    requires event.httpMethod != Some("OPTIONS") && event.body.Some?
    requires Chat.Accepts(Chat.ParseReply(reply)) && Chat.Hashable(Get(event.body.value, "priority", Str("Medium")))
    requires !Chat.Storable(Chat.ParseReply(reply).value, id, now)
    ensures var response := Chat.Step(items, event, reply, id, now).0;
      response.body.Object? && AssistantContent(Some(response.body.fields)) == Str(Chat.Issues.SchemaViolation)
  {
    Chat.UnstorableRecordFails(items, event, reply, id, now);
    ErrorShown(Chat.Issues.SchemaViolation);
  }

  /** For an accepted request that the table stores, the page shows the last eight characters of the new task's id. */
  lemma AcceptedShown(items: map<Chat.Issues.Key, Item>, event: Event, reply: Option<string>, id: string, now: string)
    requires event.httpMethod != Some("OPTIONS") && event.body.Some?
    requires Chat.Accepts(Chat.ParseReply(reply)) && Chat.Hashable(Get(event.body.value, "priority", Str("Medium")))
    requires Chat.Storable(Chat.ParseReply(reply).value, id, now)
    ensures var response := Chat.Step(items, event, reply, id, now).0;
      && response.body.Object?
      && AssistantContent(Some(response.body.fields)) == Str("Task #" + Strings.Last(id, 8) + " created successfully!")
  {
    Chat.AcceptedWritesOneRecord(items, event, reply, id, now);
    SuccessAnswerShown(id);
  }

  /** An error answer of the endpoint is shown with its error text. */
  lemma ErrorShown(reason: string)
    requires reason != ""
    ensures AssistantContent(Some(ServerError(reason).body.fields)) == Str(reason)
  {
  }

  /** The rejection answer of the endpoint is shown with its message. */
  lemma RejectionMessageShown()
    ensures AssistantContent(Some(Chat.Rejection.body.fields)) == Str("Failed to parse task")
  {
  }

  /** The answer of the chat endpoint for an accepted request. */
  function SuccessAnswer(id: string): Item {
    map["success" := Bool(true), "issueId" := Str(id)]
  }

  /** The success answer is shown with the id's last eight characters, unless the id is empty. */
  lemma SuccessAnswerShown(id: string)
    ensures AssistantContent(Some(SuccessAnswer(id)))
      == if id == "" then Str(FallbackText) else Str("Task #" + Strings.Last(id, 8) + " created successfully!")
  {
  }

  // ----- The page state the send button changes -----

  /** One line of the conversation: typed by the user, or answered. */
  datatype Line = UserLine(text: string) | AssistantLine(content: Value)

  /** The state of the chat page that `sendFormattedMessage` reads and sets. */
  class ChatPage {
    var input: string
    var lines: seq<Line>
    var loading: bool

    /** The page opens with the template in the input and no conversation. */
    constructor()
      ensures input == ResetInput && lines == [] && !loading
    {
      input := ResetInput;
      lines := [];
      loading := false;
    }

    /** Typing into the input. */
    method Type(text: string)
      modifies this
      ensures input == text && lines == old(lines) && loading == old(loading)
    {
      input := text;
    }

    /**
     * `sendFormattedMessage` with `answer` standing for the endpoint's
     * decoded answer (`None` when the request failed): when the guard
     * passes, the typed text is logged, the input is reset, the request
     * `script` posts is returned, and the assistant line for the answer is
     * logged; otherwise nothing changes and nothing is posted.
     */
    method Send(script: Script, selectedProject: string, priority: string, answer: Option<Item>) returns (request: Option<Item>)
      modifies this
      ensures !ShouldSend(old(input), selectedProject) ==>
        request == None && input == old(input) && lines == old(lines) && loading == old(loading)
      ensures ShouldSend(old(input), selectedProject) ==>
        && request == Some(RequestBody(script, old(input), priority, selectedProject))
        && input == ResetInput
        && lines == old(lines) + [UserLine(old(input)), AssistantLine(AssistantContent(answer))]
        && !loading
    {
      if Strings.Trim(input) == "" || selectedProject == "" {
        return None;
      }
      var message := input;
      var shown := AssistantLine(AssistantContent(answer));
      lines := lines + [UserLine(message)];
      input := ResetInput;
      loading := true;
      request := Some(RequestBody(script, message, priority, selectedProject));
      lines := lines + [shown];
      loading := false;
      assert lines == old(lines) + [UserLine(message), shown];
    }
  }
}
