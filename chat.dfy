/**
 * The chat host: collecting the agent's reply from the event stream of one
 * run (`run_agent_query`), and the two chat-window callbacks (`chat`,
 * `clear_chat`). The agent itself is outside the model: a run is given as the
 * sequence of events it produced.
 */
module ChatHost {
  import opened Wrappers
  import opened Text
  import opened Sanitizer

  /** One part of an event's content; only its text matters here. */
  datatype Part = Part(text: Option<string>)

  /** One event of an agent run, with the parts of its content. */
  datatype Event = Event(parts: seq<Part>)

  datatype Role = User | Assistant

  /** One entry of the chat history, a `{"role", "content"}` record. */
  datatype ChatMessage = ChatMessage(role: Role, content: string)

  /** What `chat` hands back to the window: the history (possibly absent) and the new input-box value. */
  datatype ChatUpdate = ChatUpdate(history: Option<seq<ChatMessage>>, input: string)

  // ---------------------------------------------------------------------
  // run_agent_query
  // ---------------------------------------------------------------------

  /** The text of an event's first part, when there is a first part and its text is non-empty. */
  function FirstText(e: Event): Option<string> {
    if |e.parts| > 0 && e.parts[0].text.Some? && e.parts[0].text.value != [] then e.parts[0].text else None
  }

  /** What one event adds to the reply being collected. */
  function Contribution(e: Event): string {
    match FirstText(e)
    case None => []
    case Some(x) => x + "\n"
  }

  /** The `response_text +=` loop from accumulator `acc` over the remaining `events`. */
  function Collect(acc: string, events: seq<Event>): string
    decreases |events|
  {
    if events == [] then acc else Collect(acc + Contribution(events[0]), events[1..])
  }

  /** The reply collected from `events`, before the final strip. */
  function Transcript(events: seq<Event>): string {
    Collect([], events)
  }

  /** `run_agent_query`'s result for a run that produced `events`. */
  function AgentResponse(events: seq<Event>): string {
    Strip(Transcript(events))
  }

  /** Collects the reply of one agent run, event by event. */
  method RunAgentQuery(events: seq<Event>) returns (response: string)
    ensures response == AgentResponse(events)
  {
    var responseText := "";
    for i := 0 to |events|
      invariant Collect(responseText, events[i..]) == Transcript(events)
    {
      var e := events[i];
      assert events[i..][0] == e && events[i..][1..] == events[i + 1..];
      assert Collect(responseText, events[i..]) == Collect(responseText + Contribution(e), events[i + 1..]);
      if |e.parts| > 0 && e.parts[0].text.Some? && e.parts[0].text.value != [] {
        responseText := responseText + (e.parts[0].text.value + "\n");
      } else {
        assert responseText + Contribution(e) == responseText;
      }
    }
    assert events[|events|..] == [];
    response := Strip(responseText);
  }

  /** The texts the events carry, in order. */
  function Texts(events: seq<Event>): seq<string> {
    if events == [] then []
    else match FirstText(events[0])
      case None => Texts(events[1..])
      case Some(x) => [x] + Texts(events[1..])
  }

  /** Texts, each followed by a line feed. */
  function Lines(texts: seq<string>): string {
    if texts == [] then [] else texts[0] + "\n" + Lines(texts[1..])
  }

  /** Whatever was collected before stays in front of what the remaining events add. */
  lemma {:induction false} CollectFrom(acc: string, events: seq<Event>)
    ensures Collect(acc, events) == acc + Transcript(events)
    decreases |events|
  {
    if events != [] {
      var c, rest := Contribution(events[0]), events[1..];
      var empty: string := [];
      var t := Transcript(rest);
      assert Collect(acc, events) == Collect(acc + c, rest);
      CollectFrom(acc + c, rest);
      assert Transcript(events) == Collect(empty + c, rest);
      assert empty + c == c;
      CollectFrom(c, rest);
      assert Transcript(events) == c + t;
      assert (acc + c) + t == acc + (c + t);
    }
  }

  lemma {:induction false} CollectAppend(acc: string, a: seq<Event>, b: seq<Event>)
    ensures Collect(acc, a + b) == Collect(Collect(acc, a), b)
    decreases |a|
  {
    if a == [] {
      assert a + b == b;
    } else {
      assert (a + b)[0] == a[0] && (a + b)[1..] == a[1..] + b;
      CollectAppend(acc + Contribution(a[0]), a[1..], b);
    }
  }

  /** Collecting a run in two pieces gives the two pieces' replies one after the other. */
  lemma TranscriptAppend(a: seq<Event>, b: seq<Event>)
    ensures Transcript(a + b) == Transcript(a) + Transcript(b)
  {
    CollectAppend([], a, b);
    CollectFrom(Transcript(a), b);
  }

  /** The reply is every non-empty first-part text, in the order of the events, each on its own line. */
  lemma {:induction false} TranscriptIsLines(events: seq<Event>)
    ensures Transcript(events) == Lines(Texts(events))
    decreases |events|
  {
    if events != [] {
      var c, rest := Contribution(events[0]), events[1..];
      assert [] + c == c;
      CollectFrom(c, rest);
      TranscriptIsLines(rest);
      match FirstText(events[0])
      case None =>
        assert c + Lines(Texts(rest)) == Lines(Texts(rest));
      case Some(x) =>
        var ts := [x] + Texts(rest);
        assert ts[0] == x && ts[1..] == Texts(rest);
    }
  }

  /** A run in which no event carries text gives an empty reply. */
  lemma {:induction false} NoTextNoResponse(events: seq<Event>)
    requires forall i :: 0 <= i < |events| ==> FirstText(events[i]).None?
    ensures Transcript(events) == [] && AgentResponse(events) == []
    decreases |events|
  {
    if events != [] {
      var empty: string := [];
      assert empty + Contribution(events[0]) == empty;
      NoTextNoResponse(events[1..]);
    }
  }

  /** A run with a single text-carrying event replies with that text, stripped. */
  lemma SingleTextResponse(x: string)
    requires x != []
    ensures AgentResponse([Event([Part(Some(x))])]) == Strip(x)
  {
    var e := Event([Part(Some(x))]);
    assert FirstText(e) == Some(x);
    var empty: string := [];
    assert [e][1..] == [];
    assert Transcript([e]) == Collect(empty + (x + "\n"), []);
    assert Transcript([e]) == [] + (x + "\n");
    StripIgnoresPadding([], x, "\n");
    assert [] + x + "\n" == [] + (x + "\n");
  }

  // ---------------------------------------------------------------------
  // chat and clear_chat
  // ---------------------------------------------------------------------

  /** An absent history counts as an empty one. */
  function Prior(messages: Option<seq<ChatMessage>>): seq<ChatMessage> {
    if messages.Some? then messages.value else []
  }

  /**
   * `chat`: a blank message leaves the history as it is; any other message is
   * sent to the agent, and the history gains the message and the sanitised
   * reply. The input box is cleared either way.
   */
  function Chat(userMessage: string, messages: Option<seq<ChatMessage>>, events: seq<Event>): (u: ChatUpdate)
    ensures u.input == []
    ensures Strip(userMessage) == [] ==> u.history == messages
    ensures Strip(userMessage) != [] ==>
      && u.history.Some?
      && |u.history.value| == |Prior(messages)| + 2
      && u.history.value[..|Prior(messages)|] == Prior(messages)
      && u.history.value[|Prior(messages)|] == ChatMessage(User, userMessage)
      && u.history.value[|Prior(messages)| + 1].role == Assistant
      && var reply := u.history.value[|Prior(messages)| + 1].content;
         |reply| <= |AgentResponse(events)| && reply == AgentResponse(events)[|AgentResponse(events)| - |reply|..]
  {
    if Strip(userMessage) == [] then
      ChatUpdate(messages, "")
    else
      var response := SanitizeResponse(AgentResponse(events));
      ChatUpdate(Some(Prior(messages) + [ChatMessage(User, userMessage), ChatMessage(Assistant, response)]), "")
  }

  /** `clear_chat`: both the history and the window's state become empty. */
  function ClearChat(): (r: (seq<ChatMessage>, seq<ChatMessage>))
    ensures r.0 == [] && r.1 == []
  {
    ([], [])
  }

  /** The assistant entry holds the agent's reply with any echoed boolean removed. */
  lemma ChatRepliesSanitized(userMessage: string, messages: Option<seq<ChatMessage>>, events: seq<Event>)
    requires Strip(userMessage) != []
    ensures Chat(userMessage, messages, events).history.value[|Prior(messages)| + 1]
      == ChatMessage(Assistant, SanitizeResponse(AgentResponse(events)))
  {
  }

  /** A reply that does not open with a boolean reaches the history unchanged. */
  lemma ChatKeepsPlainReply(userMessage: string, messages: Option<seq<ChatMessage>>, events: seq<Event>)
    requires Strip(userMessage) != [] && !BeginsWithBoolean(AgentResponse(events))
    ensures Chat(userMessage, messages, events).history.value[|Prior(messages)| + 1]
      == ChatMessage(Assistant, AgentResponse(events))
  {
    UnchangedWithoutBoolean(AgentResponse(events));
  }

  /** Whitespace-only messages never reach the agent. */
  lemma BlankMessageIgnored(m: string, messages: Option<seq<ChatMessage>>, events: seq<Event>)
    requires AllSpace(m)
    ensures Chat(m, messages, events) == ChatUpdate(messages, "")
  {
    assert m + [] + [] == m;
    StripUnique(m, [], []);
  }

  /** After clearing, the first message starts a history of exactly one exchange. */
  lemma ChatAfterClear(userMessage: string, events: seq<Event>)
    requires Strip(userMessage) != []
    ensures var u := Chat(userMessage, Some(ClearChat().0), events);
      u.history.Some? && |u.history.value| == 2 && u.history.value[0] == ChatMessage(User, userMessage)
  {
  }
}
