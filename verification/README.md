# Code review assistant UI: verified model of its core logic

This project models three pieces of the code review assistant's web UI in
Dafny and proves properties about them.

- **The fenced-code segmenter of the markdown renderer**
  (`MarkdownRenderer`, `markdown_renderer.dfy`). An assistant message is cut
  with `text.split` on the expression
  ```` /```([\w-]*)?(?:\n|\r\n|\r)([\s\S]*?)```/g ````. The split follows
  `RegExp.prototype[@@split]` as ECMA-262 defines it (section 22.2.6.14 of
  the 2024 edition): one sticky match attempt at every position, from left to
  right. The parts are then classified by index mod 3 into prose, language
  and code body, and turned into a rendering plan: the default language
  "text", the uppercased title, trimmed bodies, and nothing for blank prose.
  The markdown `code` override is modelled too: it extracts the
  `language-<word>` class and strips one final line break.
- **The POST handler of the chat proxy route** (`ChatRoute`,
  `chat_route.dfy`). It covers:
  - reading the request body;
  - mapping mode "A" to `co_reviewer` and every other mode to `interactive_assistant`;
  - building the backend request, with `session_id` set to `null` when the session id is falsy;
  - the non-OK status check;
  - validating the reply;
  - building the `ChatResponse`, with `sources` defaulting to `[]`;
  - the mock reply;
  - the 500 error envelope.

  Every step is a total function. Failures are values of `Result`. The
  backend call is a function parameter and the clock is a string parameter.
- **The chat panel's conversation state** (`Chat`, `chat.dfy`). This is a
  class holding the mode, the message list, the input text and the loading
  flag. It covers:
  - the submit guard;
  - the submit transitions: the user message, the `apiMessages` list built by a loop, then the reply or the apology;
  - the initial code review;
  - the reset on a change of mode;
  - the conditions for the review button and the Send button.

  The network outcome of each request is a parameter.

`Js` (`js.dfy`) holds the JavaScript semantics these rely on:
- JSON values plus `undefined`;
- truthiness, `||` and `typeof`;
- property access;
- `String.prototype.trim`;
- the `\w` class;
- ASCII `toUpperCase`.

`Wrappers` (`wrappers.dfy`) holds `Option` and `Result`.

## Model

| member | source | states |
|---|---|---|
| Js.Or | src/app/api/chat/route.ts:108 | `a \|\| b` is truthy exactly when one operand is; it is `a` when `a` is truthy and `b` otherwise |
| Js.TypeOf | src/app/api/chat/route.ts:133 | `typeof` gives "object" exactly for `null`, arrays and objects |
| Js.Field | src/app/api/chat/route.ts:138 | a property read on an object that has the key yields that key's value; on anything else it yields `undefined` |
| Js.TrimIsInfix | src/app/components/MarkdownRenderer.tsx:47 | `trim` returns a slice of its input with only white space cut off either side, and leaves no white space at either end |
| Js.TrimEmptyIffBlank | src/app/components/MarkdownRenderer.tsx:57 | `s.trim()` is empty exactly when every character of `s` is white space |
| Js.WordRunEnd | src/app/components/MarkdownRenderer.tsx:23 | the greedy run `[\w-]*` (or `\w+`) from i covers only class characters and stops at the end or before a character outside the class |
| Js.ToUpperAscii | src/app/components/MarkdownRenderer.tsx:37 | uppercasing keeps the length and maps each lower-case ASCII letter to its capital, every other character unchanged |
| MarkdownRenderer.FindFence | src/app/components/MarkdownRenderer.tsx:23 | the lazy `[\s\S]*?` stops at the first "```" at or after the body start, and there is none before it |
| MarkdownRenderer.LineBreaks | src/app/components/MarkdownRenderer.tsx:23 | the character-level line-break condition holds of exactly "\n", "\r\n" and "\r" |
| MarkdownRenderer.LineBreakAt | src/app/components/MarkdownRenderer.tsx:23 | the line break after the language is "\n", "\r\n" or "\r" and is present in the text; there is none exactly when the next character is neither "\n" nor "\r"; a "\r" followed by "\n" is taken whole as "\r\n", and a lone "\r" or a "\n" on its own |
| MarkdownRenderer.LanguageCapture | src/app/components/MarkdownRenderer.tsx:23 | the language capture is undefined for an empty run, otherwise a non-empty run of `[A-Za-z0-9_-]`, and it spells the text it came from |
| MarkdownRenderer.MatchAt | src/app/components/MarkdownRenderer.tsx:23 | a match at q ends after q, its text is exactly fence + language + line break + body + fence, the block is well formed (no "```" in the body), a lone "\r" line break is never followed by "\n" (so "\r\n" is taken whole), and the closing fence is the first "```" after the line break |
| MarkdownRenderer.ClosesAtFirstFence | src/app/components/MarkdownRenderer.tsx:23 | a body holds no "```" and does not end with a backtick exactly when no "```" starts in the body followed by two more backticks, that is, exactly when the lazy body stops at the first closing fence |
| MarkdownRenderer.MatchAtComplete | src/app/components/MarkdownRenderer.tsx:23 | whenever the text at q has a fence, a `[\w-]` run, a line break and a later fence, the match at q is found |
| MarkdownRenderer.Scan | src/app/components/MarkdownRenderer.tsx:23-26 | the split yields prose and blocks alternating, with prose at both ends, and every block is well formed |
| MarkdownRenderer.ScanRoundTrip | src/app/components/MarkdownRenderer.tsx:23-26 | the segments produced from position p re-assemble to the text from p on |
| MarkdownRenderer.SegmentsRoundTrip | src/app/components/MarkdownRenderer.tsx:23-26 | joining the prose with each block re-wrapped as "```" + language + recorded line break + body + "```" gives back the message exactly |
| MarkdownRenderer.NoMatchUpToAt | src/app/components/MarkdownRenderer.tsx:23 | the recursive "no match in [p, q)" condition used by the leftmost property rules out a match at every position of the range |
| MarkdownRenderer.ScanLeftmost | src/app/components/MarkdownRenderer.tsx:23-26 | matches are leftmost: no match starts inside any prose stretch the scan emits |
| MarkdownRenderer.SegmentsWellFormed | src/app/components/MarkdownRenderer.tsx:23-26 | the segments alternate starting and ending with prose, every language is undefined or a non-empty `[\w-]` run followed by a line break, a lone "\r" line break is never followed by "\n", no body contains "```", every block closes at the first "```" after its line break, and no match starts inside prose |
| MarkdownRenderer.PartsAt | src/app/components/MarkdownRenderer.tsx:26 | for n blocks the split array has 3n + 1 parts, and the i-th prose, language and body sit at 3i, 3i + 1 and 3i + 2 |
| MarkdownRenderer.SplitLayout | src/app/components/MarkdownRenderer.tsx:26-53 | `split` returns 3n + 1 parts for n blocks: index 3i is prose, 3i + 1 the language capture, 3i + 2 the body, so the array starts and ends with prose |
| MarkdownRenderer.LanguageOf | src/app/components/MarkdownRenderer.tsx:32 | the language used for a body is the trimmed capture when the capture has something besides white space, and "text" when it is absent or blank |
| MarkdownRenderer.RenderMarkdown | src/app/components/MarkdownRenderer.tsx:13-29 | an absent or empty message renders only "No content to display"; any other renders one entry per split part |
| MarkdownRenderer.TrimLanguage | src/app/components/MarkdownRenderer.tsx:32 | trimming a language capture changes nothing |
| MarkdownRenderer.RenderProsePart | src/app/components/MarkdownRenderer.tsx:56-62 | a prose part renders nothing when it is white space only, otherwise as markdown, untrimmed |
| MarkdownRenderer.RenderLanguagePart | src/app/components/MarkdownRenderer.tsx:51-53 | a language part renders nothing |
| MarkdownRenderer.RenderBodyPart | src/app/components/MarkdownRenderer.tsx:30-49 | a body renders trimmed, in its block's language or "text" when absent, titled with that language uppercased |
| MarkdownRenderer.RenderedProseAt | src/app/components/MarkdownRenderer.tsx:56-59 | the rendered entry for the i-th prose stretch is nothing for blank prose and its markdown otherwise |
| MarkdownRenderer.RenderedBlockAt | src/app/components/MarkdownRenderer.tsx:30-53 | the rendered entries for the i-th block are nothing for its language and its highlighted, trimmed body |
| MarkdownRenderer.RenderedBlocks | src/app/components/MarkdownRenderer.tsx:29-59 | a non-empty message with n blocks renders 3n + 1 entries: blank prose renders nothing and other prose renders as markdown; each language renders nothing; each body renders trimmed in its language ("text" when absent) under that language uppercased |
| MarkdownRenderer.FindClassMatch | src/app/components/MarkdownRenderer.tsx:78 | the search finds the leftmost "language-" followed by a word character, or reports that there is none |
| MarkdownRenderer.ClassLanguage | src/app/components/MarkdownRenderer.tsx:78 | a language is found exactly when the class names contain "language-" followed by a word character, and it is a non-empty run of word characters |
| MarkdownRenderer.ClassLanguageLeftmost | src/app/components/MarkdownRenderer.tsx:78 | the language is the whole word run right after the leftmost "language-" that has a word character after it |
| MarkdownRenderer.StripFinalNewline | src/app/components/MarkdownRenderer.tsx:86 | exactly one final "\n" is removed when present, otherwise the text is unchanged |
| MarkdownRenderer.RenderCode | src/app/components/MarkdownRenderer.tsx:77-96 | highlighting happens exactly when the element is not inline and a language class is present, in that language, with one final "\n" removed; inline code keeps its children |
| MarkdownRenderer.ExampleBlock | src/app/components/MarkdownRenderer.tsx:23-26 | "a```py\nx```b" splits into prose "a", a "py" block holding "x", and prose "b" |
| MarkdownRenderer.ExampleNoLanguage | src/app/components/MarkdownRenderer.tsx:23-26 | a fence with no language word has an undefined capture, "\r\n" is taken whole, and the prose at both ends is empty |
| MarkdownRenderer.ExampleFirstFence | src/app/components/MarkdownRenderer.tsx:23 | in "```\nx````" the block closes at the first three of the four backticks: its body is "x" and the match ends before the last backtick |
| MarkdownRenderer.ExampleInvalidBlocks | src/app/components/MarkdownRenderer.tsx:23 | a block recording a lone "\r" before a body that starts with "\n", or one whose body ends in a backtick that forms "```" with the closing fence, is not well formed |
| MarkdownRenderer.ExampleUnclosed | src/app/components/MarkdownRenderer.tsx:23-26 | a fence that is never closed is left as prose |
| MarkdownRenderer.ExampleClassLanguage | src/app/components/MarkdownRenderer.tsx:78 | in "x language-ts-1" the match is at index 2 and the language is "ts": the dash ends the word run |
| MarkdownRenderer.ExampleCodeOverride | src/app/components/MarkdownRenderer.tsx:78-86 | the class "x language-ts-1" highlights as "ts", and "a\n\n" loses only its last "\n" |
| ChatRoute.ReadRequest | src/app/api/chat/route.ts:81 | destructuring fails only for a `null` or `undefined` body; otherwise each field is the body's property and `messages` defaults to `[]` |
| ChatRoute.BackendMode | src/app/api/chat/route.ts:101 | mode "A" maps to "co_reviewer" and every other value to "interactive_assistant" |
| ChatRoute.BackendRequestOf | src/app/api/chat/route.ts:104-109 | the backend request passes `query` unchanged, sets `pr_id` to `selectedProject`, sends mode "A" as `co_reviewer` and any other mode as `interactive_assistant`, and sends the session id or `null` when it is falsy |
| ChatRoute.Envelope | src/app/api/chat/route.ts:150-155 | a failure is status 500 with "Failed to process request", with the error's message as details or "Unknown error" for a non-Error value |
| ChatRoute.CheckReply | src/app/api/chat/route.ts:133-141 | a reply is accepted exactly when it is an object with truthy `answer` and `session_id`; non-objects fail with "Not an object" and objects lacking either with "Missing required properties" |
| ChatRoute.ToChatResponse | src/app/api/chat/route.ts:144-149 | `content` is `answer`, `sessionId` is `session_id`, `sources` is the reply's sources or `[]` when falsy, stamped with the given time |
| ChatRoute.MockResponse | src/app/api/chat/route.ts:88-97 | the mock reply is the fixed text with no sources and the given session id or "mock-session-1234" when falsy |
| ChatRoute.HandleReply | src/app/api/chat/route.ts:114-149 | a network failure and a body that does not parse fail with their own error; a non-OK status is an error naming the status text; a reply failing the checks fails with the check's error; a response is built exactly when the status is OK, the body parses and passes the checks |
| ChatRoute.Post | src/app/api/chat/route.ts:79-157 | the route succeeds exactly when the body is readable and the mock is on or the backend reply is accepted; an unreadable body is the 500 envelope of its parse error, a `null` body that of the destructuring failure, and a rejected backend reply that of the reply's error; mock and backend successes carry the fields above |
| Chat.SendDisabled | src/app/components/Chat.tsx:223 | Send is disabled exactly when the submit guard rejects: loading, or an input of white space only |
| Chat.ReplyMessage | src/app/components/Chat.tsx:135-153 | the appended message is from the assistant; it copies the reply's `message` and `timestamp` when a body arrived, and is the apology stamped now when the call failed or the body is `null` |
| Chat.OutgoingUnique | src/app/components/Chat.tsx:104-113 | the outgoing list is determined by the history and the input |
| Chat.BuildApiMessages | src/app/components/Chat.tsx:104-113 | the outgoing list is the history's (role, content) pairs in order, followed by the new user message |
| Chat.ChatView.constructor | src/app/components/Chat.tsx:20-27 | a new panel has no messages, an empty input and is not loading, so it shows the review button exactly in mode A |
| Chat.ChatView.ChangeMode | src/app/components/Chat.tsx:25-27 | a change of mode empties the message list and leaves input and loading as they were; while nothing loads, the review button then shows exactly when the new mode is A |
| Chat.ChatView.SetInput | src/app/components/Chat.tsx:210-213 | typing, possible only while nothing loads since the text area is then disabled, replaces the input and nothing else |
| Chat.ChatView.BeginSubmit | src/app/components/Chat.tsx:86-113 | a rejected submit changes nothing; an accepted one appends one user message holding the untrimmed input, clears the input, sets loading, and sends the history before the append plus the new message; afterwards the review button is hidden |
| Chat.ChatView.FinishSubmit | src/app/components/Chat.tsx:135-156 | exactly one assistant message (reply or apology) is appended, earlier messages are unchanged, and loading ends |
| Chat.ChatView.HandleSubmit | src/app/components/Chat.tsx:86-157 | a rejected submit changes nothing; an accepted one adds exactly the user message then the assistant message, clears the input, ends not loading and leaves the review button hidden |
| Chat.ChatView.StartInitialReview | src/app/components/Chat.tsx:44 | the review sets loading and nothing else, which hides the review button |
| Chat.ChatView.FinishInitialReview | src/app/components/Chat.tsx:64-82 | the list is replaced by exactly one assistant message (reply or the summary apology) and loading ends |
| Chat.ChatView.HandleInitialCodeReview | src/app/components/Chat.tsx:43-83 | the whole review leaves exactly one assistant message, the input unchanged and nothing loading, and the review button no longer shows |

Every `ChatView` method also keeps `Valid()`: no user message in the list is
blank, because only accepted submissions add user messages.

## Left out

- Network and I/O are not modelled: the `fetch` calls, `response.json()`
  and `response.text()`, and `req.json()`. The backend is a function from
  request to reply, the UI's calls are an `Outcome` parameter, and parse
  failures are error values. A rejected `response.text()` on a non-OK status
  is not modelled; its text is only logged.
- Logging (`console.log` / `console.error`) is left out.
- Clocks and delays are left out: `new Date().toISOString()` is a `now`
  string parameter, and the mock's two-second delay is not modelled.
- `process.env.USE_MOCK_API` is the boolean `useMock`.
- `localStorage` and the `apiKey` field are left out.
- What ReactMarkdown, remark-gfm, rehype-raw and SyntaxHighlighter draw is
  left out. The plan records only what is handed to them.
- MarkdownRenderer.RenderMarkdown takes string messages only (or none at
  all). The panel copies the reply's `message` property unchecked
  (src/app/components/Chat.tsx:67, 139), so a truthy non-string such as
  the number 42 can reach the renderer. It passes the emptiness test,
  `text.split` throws, and the `try`/`catch` fallback renders the whole
  value as markdown (src/app/components/MarkdownRenderer.tsx:111-121).
  That fallback is not modelled.
- ChatRoute.ReadRequest: the engine's TypeError text for destructuring
  `null` is a stand-in constant (`DestructureFailure`), because the wording
  is the engine's.
- Js.JsValue: numbers are integers. Floating point, `NaN` and `-0` are
  left out; they do not affect the checks modelled here.
- Strings are sequences of Unicode scalar values, while JavaScript strings
  are UTF-16 code units. Nothing modelled depends on the difference: the
  fence, `\w`, the line breaks and the white space `trim` removes are all in
  the Basic Multilingual Plane, so no match, capture or trim boundary can
  fall inside a surrogate pair.
- Js.ToUpperAscii: uppercases ASCII only, not full Unicode `toUpperCase`.
  This is exact for every language the renderer can produce, which is a
  `[A-Za-z0-9_-]` run or "text".
- Chat.ChatView: the handlers run to completion one after another. React's
  asynchronous interleaving, stale closures and effect scheduling are not
  modelled, nor is scrolling into view. The mount-time reset is folded into
  the constructor.
- Chat.ReplyMessage: a failed call is modelled, not why it failed
  (rejected fetch, non-OK status or bad JSON).
- The chat panel and the route are not proved to agree. The panel reads
  `data.message` (src/app/components/Chat.tsx:67, 139), while the route
  answers with `content` (src/app/api/chat/route.ts:145). The panel sends
  `messages` and `apiKey`, while the route reads `query`, `selectedProject`
  and `sessionId`. Each side is modelled against its own code.
- The page renders the chat panel without passing `messages` or
  `setMessages` (src/app/page.tsx), although the panel declares them as
  props. The model treats the message list as the panel's own state.
- The presentation components, the projects proxy, the health route and
  the page layout are not part of this model.
