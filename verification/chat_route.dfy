/**
 * The POST handler of the chat proxy route: it reads the UI's request,
 * either answers with a fixed mock reply or maps the request onto the
 * backend's request, validates the backend's reply and maps it onto the
 * response the UI expects; every failure becomes the same error envelope.
 *
 * The `fetch` to the backend and the reading of its body are left abstract:
 * the backend is a function from the request it is sent to the reply it
 * gives, and the clock is the parameter `now`.
 */
module ChatRoute {
  import opened Wrappers
  import opened Js

  /** The text of the mock reply, as written in the route. */
  const MockText: string := @"# My Heading

## Subheading

This is a text demonstration in which we will be **bolding** some text, making text *italic*, and also, we are going to show a `code snippet`.

### Python Code Snippet

The following is a little piece of Python code:

```python
def hello_world(name):
    """"""A simple function that greets you""""""
    print(f""Hello, {name}!"")

hello_world(""Mark"")
```

### Bullet Points

Here are some bullet points:
- Point 1
- Point 2
- Point 3

#### Numbered List

Alternatively, here's a numbered list:
1. Number 1
2. Number 2
3. Number 3

For strikethrough, you can use `~~strikethrough~~` to achieve the following output: ~~strikethrough~~

##### Hyperlink

Lastly, [Click here to visit Google](https://www.google.com)

-----
### Another Heading

More text goes here. 

#### Bold & Italic

You can even use ***bold and italic*** together.

That is all for this markdown demonstration. Goodbye!"

  const MockSessionId: string := "mock-session-1234"
  const CoReviewer: string := "co_reviewer"
  const InteractiveAssistant: string := "interactive_assistant"
  const FailureTitle: string := "Failed to process request"
  const UnknownError: string := "Unknown error"
  const FetchFailedPrefix: string := "Failed to fetch from backend API: "
  const NotAnObject: string := "Invalid response format from backend API: Not an object"
  const MissingProperties: string := "Invalid response format from backend API: Missing required properties"

  /**
   * Stand-in for the message of the TypeError the engine throws when the
   * request body is `null`: its wording belongs to the JavaScript engine.
   */
  const DestructureFailure: string := "Cannot destructure the request body"

  /** What a `throw` or a rejected promise carries: an `Error` with its message, or any other value. */
  datatype Thrown = ErrorValue(message: string) | OtherValue

  /** The fields the route takes out of the request body. */
  datatype ChatRequest = ChatRequest(
    query: JsValue, mode: JsValue, messages: JsValue, selectedProject: JsValue, sessionId: JsValue)

  /** The body posted to the backend. */
  datatype BackendRequest = BackendRequest(query: JsValue, prId: JsValue, mode: string, sessionId: JsValue)

  /**
   * How the backend call ends: `fetch` rejects, or a response arrives with
   * its `ok` flag, its status text and what `response.json()` gives.
   */
  datatype BackendReply =
    | NetworkFailure(reason: Thrown)
    | Reply(ok: bool, statusText: string, json: Result<JsValue, Thrown>)

  /** The body of a successful response, as the UI is promised it. */
  datatype ChatResponse = ChatResponse(content: JsValue, timestamp: string, sessionId: JsValue, sources: JsValue)

  /** What the route answers: status 200 with a `ChatResponse`, or an error status with the error envelope. */
  datatype RouteResponse =
    | Success(body: ChatResponse)
    | Failure(status: nat, error: string, details: string)

  /**
   * `const { query, mode, messages = [], selectedProject, sessionId } = await req.json()`:
   * destructuring `null` throws; any other value gives its properties,
   * `undefined` where absent, and `messages` defaults to `[]`.
   */
  function ReadRequest(body: JsValue): (r: Result<ChatRequest, Thrown>)
    ensures r.Err? <==> body.Null? || body.Undefined?
    ensures r.Ok? ==> r.value.query == Field(body, "query") && r.value.mode == Field(body, "mode")
    ensures r.Ok? ==> r.value.selectedProject == Field(body, "selectedProject")
    ensures r.Ok? ==> r.value.sessionId == Field(body, "sessionId")
    ensures r.Ok? ==> r.value.messages == if Field(body, "messages").Undefined? then Arr([]) else Field(body, "messages")
  {
    if body.Null? || body.Undefined? then Err(ErrorValue(DestructureFailure))
    else
      var messages := Field(body, "messages");
      Ok(ChatRequest(
        Field(body, "query"), Field(body, "mode"),
        if messages.Undefined? then Arr([]) else messages,
        Field(body, "selectedProject"), Field(body, "sessionId")))
  }

  /** The UI's mode "A" is the backend's co-reviewer; every other value, absent included, is the interactive assistant. */
  function BackendMode(mode: JsValue): (r: string)
    ensures r == CoReviewer <==> mode == Str("A")
    ensures r == InteractiveAssistant <==> mode != Str("A")
  {
    if mode == Str("A") then CoReviewer else InteractiveAssistant
  }

  /**
   * The request body for the backend: the query unchanged, the project as
   * `pr_id`, the mapped mode, and the session id, or `null` when it is falsy.
   */
  function BackendRequestOf(req: ChatRequest): (r: BackendRequest)
    ensures r.query == req.query && r.prId == req.selectedProject
    ensures r.mode == CoReviewer <==> req.mode == Str("A")
    ensures req.mode != Str("A") ==> r.mode == InteractiveAssistant
    ensures Truthy(req.sessionId) ==> r.sessionId == req.sessionId
    ensures !Truthy(req.sessionId) ==> r.sessionId == Null
  {
    BackendRequest(req.query, req.selectedProject, BackendMode(req.mode), Or(req.sessionId, Null))
  }

  /** `error instanceof Error ? error.message : 'Unknown error'`. */
  function ErrorDetails(t: Thrown): string {
    match t
    case ErrorValue(message) => message
    case OtherValue => UnknownError
  }

  /** The catch block: status 500 with the fixed error title and the thrown message. */
  function Envelope(t: Thrown): (r: RouteResponse)
    ensures r.Failure? && r.status == 500 && r.error == FailureTitle
    ensures t.ErrorValue? ==> r.details == t.message
    ensures t.OtherValue? ==> r.details == UnknownError
  {
    Failure(500, FailureTitle, ErrorDetails(t))
  }

  /**
   * The two checks on the backend's reply: it must be a (truthy) object,
   * and its `answer` and `session_id` must be present and non-empty.
   */
  function CheckReply(data: JsValue): (r: Result<JsValue, Thrown>)
    ensures r.Ok? <==> (data.Obj? || data.Arr?) && Truthy(Field(data, "answer")) && Truthy(Field(data, "session_id"))
    ensures r.Ok? ==> r.value == data
    ensures r.Ok? ==> data.Obj? && "answer" in data.fields && "session_id" in data.fields
    ensures r == Err(ErrorValue(NotAnObject)) <==> !(data.Obj? || data.Arr?)
    ensures r == Err(ErrorValue(MissingProperties)) <==>
      (data.Obj? || data.Arr?) && !(Truthy(Field(data, "answer")) && Truthy(Field(data, "session_id")))
  {
    if !Truthy(data) || TypeOf(data) != "object" then Err(ErrorValue(NotAnObject))
    else if !Truthy(Field(data, "answer")) || !Truthy(Field(data, "session_id")) then Err(ErrorValue(MissingProperties))
    else Ok(data)
  }

  /** The response built from an accepted reply: `answer`, `session_id`, and `sources` or `[]`. */
  function ToChatResponse(data: JsValue, now: string): (r: ChatResponse)
    ensures r.content == Field(data, "answer") && r.sessionId == Field(data, "session_id") && r.timestamp == now
    ensures Truthy(Field(data, "sources")) ==> r.sources == Field(data, "sources")
    ensures !Truthy(Field(data, "sources")) ==> r.sources == Arr([])
  {
    ChatResponse(Field(data, "answer"), now, Field(data, "session_id"), Or(Field(data, "sources"), Arr([])))
  }

  /** The mock reply: the fixed text, no sources, and the given session id or the mock one. */
  function MockResponse(req: ChatRequest, now: string): (r: ChatResponse)
    ensures r.content == Str(MockText) && r.sources == Arr([]) && r.timestamp == now
    ensures Truthy(req.sessionId) ==> r.sessionId == req.sessionId
    ensures !Truthy(req.sessionId) ==> r.sessionId == Str(MockSessionId)
  {
    ChatResponse(Str(MockText), now, Or(req.sessionId, Str(MockSessionId)), Arr([]))
  }

  /**
   * Everything after the `fetch`: a rejected fetch or body read passes its
   * error on, a non-OK status becomes an error naming the status text,
   * and an OK reply is checked and mapped.
   */
  function HandleReply(reply: BackendReply, now: string): (r: Result<ChatResponse, Thrown>)
    ensures reply.NetworkFailure? ==> r == Err(reply.reason)
    ensures reply.Reply? && !reply.ok ==> r == Err(ErrorValue(FetchFailedPrefix + reply.statusText))
    ensures reply.Reply? && reply.ok && reply.json.Err? ==> r == Err(reply.json.error)
    ensures reply.Reply? && reply.ok && reply.json.Ok? && CheckReply(reply.json.value).Err? ==>
      r == Err(CheckReply(reply.json.value).error)
    ensures r.Ok? <==> reply.Reply? && reply.ok && reply.json.Ok? && CheckReply(reply.json.value).Ok?
    ensures r.Ok? ==> r.value == ToChatResponse(reply.json.value, now)
  {
    match reply
    case NetworkFailure(t) => Err(t)
    case Reply(ok, statusText, json) =>
      if !ok then Err(ErrorValue(FetchFailedPrefix + statusText))
      else
        match json
        case Err(t) => Err(t)
        case Ok(data) =>
          match CheckReply(data)
          case Err(t) => Err(t)
          case Ok(_) => Ok(ToChatResponse(data, now))
  }

  /** Whether the backend's reply is one the route accepts. */
  predicate Accepted(reply: BackendReply) {
    reply.Reply? && reply.ok && reply.json.Ok? && CheckReply(reply.json.value).Ok?
  }

  /** Whether the request body was parsed and can be destructured. */
  predicate Readable(body: Result<JsValue, Thrown>) {
    body.Ok? && ReadRequest(body.value).Ok?
  }

  /** The request the route sends the backend for a readable body. */
  function SentRequest(body: Result<JsValue, Thrown>): (r: BackendRequest)
    requires Readable(body)
    ensures r.query == Field(body.value, "query") && r.prId == Field(body.value, "selectedProject")
  {
    BackendRequestOf(ReadRequest(body.value).value)
  }

  /**
   * `POST(req)`. `body` is what `req.json()` gives (a parse failure is an
   * error), `useMock` is `process.env.USE_MOCK_API === 'true'`, `backend`
   * is what the backend answers to the request it is sent, and `now` is
   * the time the response is stamped with.
   *
   * The route succeeds exactly when the body is readable and either the
   * mock is on or the backend's reply is accepted; every failure is the
   * 500 envelope; a non-OK status is reported with its status text; a
   * success from the backend carries its non-empty answer and session id.
   */
  function Post(useMock: bool, body: Result<JsValue, Thrown>, backend: BackendRequest -> BackendReply, now: string): (r: RouteResponse)
    ensures r.Failure? ==> r.status == 500 && r.error == FailureTitle
    ensures r.Success? <==> Readable(body) && (useMock || Accepted(backend(SentRequest(body))))
    ensures body.Err? ==> r == Envelope(body.error)
    ensures body.Ok? && ReadRequest(body.value).Err? ==> r == Envelope(ErrorValue(DestructureFailure))
    ensures Readable(body) && !useMock && HandleReply(backend(SentRequest(body)), now).Err? ==>
      r == Envelope(HandleReply(backend(SentRequest(body)), now).error)
    ensures Readable(body) && useMock ==>
      && r.Success? && r.body.content == Str(MockText) && r.body.sources == Arr([]) && r.body.timestamp == now
      && r.body.sessionId == Or(Field(body.value, "sessionId"), Str(MockSessionId))
    ensures Readable(body) && !useMock && backend(SentRequest(body)).Reply? && !backend(SentRequest(body)).ok ==>
      r == Failure(500, FailureTitle, FetchFailedPrefix + backend(SentRequest(body)).statusText)
    ensures Readable(body) && !useMock && r.Success? ==>
      var data := backend(SentRequest(body)).json.value;
      && r.body.content == Field(data, "answer") && Truthy(r.body.content)
      && r.body.sessionId == Field(data, "session_id") && Truthy(r.body.sessionId)
      && r.body.sources == Or(Field(data, "sources"), Arr([]))
      && r.body.timestamp == now
  {
    if !body.Ok? then Envelope(body.error)
    else
      match ReadRequest(body.value)
      case Err(t) => Envelope(t)
      case Ok(req) =>
        if useMock then Success(MockResponse(req, now))
        else
          match HandleReply(backend(BackendRequestOf(req)), now)
          case Err(t) => Envelope(t)
          case Ok(response) => Success(response)
  }
}
