/**
 * The conversation state of the chat panel: the message list, the text in
 * the input box and the loading flag, and how submitting a message, the
 * initial code review and a change of mode update them.
 *
 * Each handler runs to completion in the order it is called; the network
 * round trip is an input (`Outcome`), and the clock is the parameter `now`.
 */
module Chat {
  import opened Wrappers
  import opened Js

  datatype Role = User | Assistant

  /** The two modes of the panel: "A" (co-reviewer) and "B" (interactive assistant). */
  datatype UiMode = A | B

  /**
   * A message as the panel keeps it. Assistant messages copy whatever the
   * reply's `message` and `timestamp` properties hold, so both are
   * JavaScript values rather than strings.
   */
  datatype Message = Message(role: Role, content: JsValue, timestamp: JsValue)

  /** A message as it is sent to `/api/chat`: its role and its content. */
  datatype ApiMessage = ApiMessage(role: Role, content: JsValue)

  /**
   * How a call to `/api/chat` ends: it fails (the fetch rejects, the status
   * is not OK, or the body is not JSON), or it answers with a parsed body.
   */
  datatype Outcome = Failed | Answered(data: JsValue)

  const SubmitApology: string :=
    "Sorry, I encountered an error processing your request. Please try again."
  const ReviewApology: string :=
    "Sorry, I encountered an error generating the initial summary. Please try again."

  /** The submit guard: the trimmed input is non-empty and no request is in flight. */
  predicate SubmitAccepted(input: string, isLoading: bool) {
    Trim(input) != "" && !isLoading
  }

  /** The Send button's `disabled` condition; it is exactly the case the submit guard rejects. */
  function SendDisabled(input: string, isLoading: bool): (r: bool)
    ensures r <==> !SubmitAccepted(input, isLoading)
    ensures !r <==> !isLoading && !AllWhiteSpace(input)
  {
    TrimEmptyIffBlank(input);
    isLoading || Trim(input) == ""
  }

  /** The "Generate Initial Code Review" button is shown on an empty list in mode A while nothing loads. */
  predicate ShowsReviewButton(messages: seq<Message>, mode: UiMode, isLoading: bool) {
    |messages| == 0 && mode == A && !isLoading
  }

  /**
   * The message added for a finished request: the reply's `message` and
   * `timestamp` when a body arrived, otherwise (a failed call, or a `null`
   * body whose property read throws) the given apology stamped `now`.
   */
  function ReplyMessage(outcome: Outcome, apology: string, now: string): (m: Message)
    ensures m.role == Assistant
    ensures outcome.Answered? && !outcome.data.Null? && !outcome.data.Undefined? ==>
      m.content == Field(outcome.data, "message") && m.timestamp == Field(outcome.data, "timestamp")
    ensures outcome.Failed? || outcome.data.Null? || outcome.data.Undefined? ==>
      m.content == Str(apology) && m.timestamp == Str(now)
  {
    match outcome
    case Answered(data) =>
      if data.Null? || data.Undefined? then Message(Assistant, Str(apology), Str(now))
      else Message(Assistant, Field(data, "message"), Field(data, "timestamp"))
    case Failed => Message(Assistant, Str(apology), Str(now))
  }

  /** `api` is the history's (role, content) pairs in order, followed by the new user message. */
  predicate IsOutgoing(api: seq<ApiMessage>, history: seq<Message>, input: string) {
    && |api| == |history| + 1
    && (forall i :: 0 <= i < |history| ==> api[i] == ApiMessage(history[i].role, history[i].content))
    && api[|history|] == ApiMessage(User, Str(input))
  }

  /** There is only one outgoing list for a history and an input. */
  lemma OutgoingUnique(a: seq<ApiMessage>, b: seq<ApiMessage>, history: seq<Message>, input: string)
    requires IsOutgoing(a, history, input) && IsOutgoing(b, history, input)
    ensures a == b
  {
    forall i | 0 <= i < |a|
      ensures a[i] == b[i]
    {
      if i < |history| {
        assert a[i] == ApiMessage(history[i].role, history[i].content);
      }
    }
  }

  /** The `apiMessages` array: the history mapped to (role, content), then the new user message pushed. */
  method BuildApiMessages(history: seq<Message>, input: string) returns (api: seq<ApiMessage>)
    ensures IsOutgoing(api, history, input)
  {
    api := [];
    var k := 0;
    while k < |history|
      invariant 0 <= k <= |history|
      invariant |api| == k
      invariant forall i :: 0 <= i < k ==> api[i] == ApiMessage(history[i].role, history[i].content)
    {
      api := api + [ApiMessage(history[k].role, history[k].content)];
      k := k + 1;
    }
    api := api + [ApiMessage(User, Str(input))];
  }

  /** Every user message in the list holds a string with something besides white space. */
  predicate UserMessagesNonBlank(messages: seq<Message>) {
    forall i :: 0 <= i < |messages| && messages[i].role == User ==>
      messages[i].content.Str? && Trim(messages[i].content.s) != ""
  }

  /** The panel's state and its transitions. */
  class ChatView {
    var mode: UiMode
    var messages: seq<Message>
    var input: string
    var isLoading: bool

    /** Only accepted submissions add user messages, so none of them is blank. */
    predicate Valid()
      reads this
    {
      UserMessagesNonBlank(messages)
    }

    /** A fresh panel: no messages (the mode effect clears them on mount), an empty input, not loading. */
    constructor(mode: UiMode)
      ensures Valid()
      ensures this.mode == mode && messages == [] && input == "" && !isLoading
      ensures ShowsReviewButton(messages, this.mode, isLoading) <==> mode == A
    {
      this.mode := mode;
      messages := [];
      input := "";
      isLoading := false;
    }

    /** The mode effect: a change of mode empties the list; nothing else changes. */
    method ChangeMode(newMode: UiMode)
      requires Valid()
      modifies this
      ensures Valid()
      ensures mode == newMode
      ensures messages == if newMode != old(mode) then [] else old(messages)
      ensures input == old(input) && isLoading == old(isLoading)
      ensures newMode != old(mode) && !isLoading ==> (ShowsReviewButton(messages, mode, isLoading) <==> newMode == A)
    {
      if newMode != mode {
        messages := [];
      }
      mode := newMode;
    }

    /** Typing in the text area replaces the input and nothing else; the text area is disabled while loading. */
    method SetInput(text: string)
      requires Valid() && !isLoading
      modifies this
      ensures Valid()
      ensures input == text
      ensures mode == old(mode) && messages == old(messages) && isLoading == old(isLoading)
    {
      input := text;
    }

    /**
     * The synchronous part of `handleSubmit`. A rejected submission changes
     * nothing and sends nothing. An accepted one appends the user message
     * holding the untrimmed input, clears the input, sets loading, and
     * returns the list sent to the API, built from the history before the
     * append.
     */
    method BeginSubmit(now: string) returns (outgoing: Option<seq<ApiMessage>>)
      requires Valid()
      modifies this
      ensures Valid()
      ensures mode == old(mode)
      ensures outgoing.Some? <==> SubmitAccepted(old(input), old(isLoading))
      ensures outgoing.None? ==>
        messages == old(messages) && input == old(input) && isLoading == old(isLoading)
      ensures outgoing.Some? ==>
        && IsOutgoing(outgoing.value, old(messages), old(input))
        && messages == old(messages) + [Message(User, Str(old(input)), Str(now))]
        && input == "" && isLoading
      ensures outgoing.Some? ==> !ShowsReviewButton(messages, mode, isLoading)
    {
      if Trim(input) == "" || isLoading {
        return None;
      }
      var userMessage := Message(User, Str(input), Str(now));
      var api := BuildApiMessages(messages, input);
      messages := messages + [userMessage];
      isLoading := true;
      input := "";
      outgoing := Some(api);
    }

    /**
     * The end of `handleSubmit`: one assistant message is appended (the
     * reply, or the apology), earlier messages stay as they are, and
     * loading ends.
     */
    method FinishSubmit(outcome: Outcome, now: string)
      requires Valid()
      modifies this
      ensures Valid()
      ensures messages == old(messages) + [ReplyMessage(outcome, SubmitApology, now)]
      ensures mode == old(mode) && input == old(input) && !isLoading
    {
      messages := messages + [ReplyMessage(outcome, SubmitApology, now)];
      isLoading := false;
    }

    /**
     * The whole of `handleSubmit`, with `api` standing for the call to
     * `/api/chat` on the outgoing list. A rejected submission changes
     * nothing; an accepted one adds exactly the user message and the
     * assistant message, in that order.
     */
    method HandleSubmit(api: (seq<ApiMessage>, UiMode) -> Outcome, sentAt: string, answeredAt: string)
      returns (sent: Option<seq<ApiMessage>>)
      requires Valid()
      modifies this
      ensures Valid()
      ensures mode == old(mode)
      ensures sent.Some? <==> SubmitAccepted(old(input), old(isLoading))
      ensures sent.None? ==>
        messages == old(messages) && input == old(input) && isLoading == old(isLoading)
      ensures sent.Some? ==>
        && IsOutgoing(sent.value, old(messages), old(input))
        && messages == old(messages) + [Message(User, Str(old(input)), Str(sentAt)),
                                        ReplyMessage(api(sent.value, mode), SubmitApology, answeredAt)]
        && input == "" && !isLoading
      ensures sent.Some? ==> !ShowsReviewButton(messages, mode, isLoading)
    {
      sent := BeginSubmit(sentAt);
      if sent.Some? {
        FinishSubmit(api(sent.value, mode), answeredAt);
      }
    }

    /** The start of `handleInitialCodeReview`: loading begins; it has no guard of its own. */
    method StartInitialReview()
      requires Valid()
      modifies this
      ensures Valid()
      ensures isLoading
      ensures mode == old(mode) && messages == old(messages) && input == old(input)
      ensures !ShowsReviewButton(messages, mode, isLoading)
    {
      isLoading := true;
    }

    /**
     * The end of `handleInitialCodeReview`: the whole list is replaced by one
     * assistant message (the reply, or the summary apology), and loading ends.
     */
    method FinishInitialReview(outcome: Outcome, now: string)
      requires Valid()
      modifies this
      ensures Valid()
      ensures messages == [ReplyMessage(outcome, ReviewApology, now)]
      ensures mode == old(mode) && input == old(input) && !isLoading
    {
      messages := [ReplyMessage(outcome, ReviewApology, now)];
      isLoading := false;
    }

    /** The whole of `handleInitialCodeReview`, with `review` standing for the call to `/api/chat`. */
    method HandleInitialCodeReview(review: Outcome, now: string)
      requires Valid()
      modifies this
      ensures Valid()
      ensures messages == [ReplyMessage(review, ReviewApology, now)]
      ensures messages[0].role == Assistant
      ensures mode == old(mode) && input == old(input) && !isLoading
      ensures !ShowsReviewButton(messages, mode, isLoading)
    {
      StartInitialReview();
      FinishInitialReview(review, now);
    }
  }
}
