/** The request side of the chat client: a client bound to a server address
    and a fixed model, and the payload its `chat` call posts. */
module Client {
  import opened Types

  const DefaultBaseUrl: string := "http://localhost:11434"

  /** The model every request of the client names. */
  const ModelId: string := "SpeakLeash/bielik-11b-v2.2-instruct:Q4_K_M"

  /** A client: its fields are set once, at construction, and never change. */
  datatype BielikClient = BielikClient(baseUrl: string, model: string)

  /** `BielikClient(base_url)`: the model is always the fixed one. */
  function NewClient(baseUrl: string := DefaultBaseUrl): (c: BielikClient)
    ensures c.baseUrl == baseUrl && c.model == ModelId
  {
    BielikClient(baseUrl, ModelId)
  }

  /** The JSON body `{"model", "stream", "messages"}` posted to the chat endpoint. */
  datatype Payload = Payload(model: string, stream: bool, messages: seq<Message>)

  /** The caller's history as chat copies it; an absent history adds nothing. */
  function Context(history: Option<seq<Message>>): seq<Message>
  {
    if history.Some? then history.value else []
  }

  /** The payload of `chat(message, system_prompt, conversation_history, stream)`:
      a fresh list holding the system prompt when one is given (a non-empty
      string), then the caller's history, then the new user message. */
  function ChatRequest(c: BielikClient, message: string, systemPrompt: Option<string> := None,
                       history: Option<seq<Message>> := None, stream: bool := false): (p: Payload)
    ensures p.model == c.model && p.stream == stream
    ensures var k := if Given(systemPrompt) then 1 else 0;
      && |p.messages| == k + |Context(history)| + 1
      && (Given(systemPrompt) ==> p.messages[0] == SystemMessage(systemPrompt.value))
      && p.messages[k..k + |Context(history)|] == Context(history)
      && p.messages[|p.messages| - 1] == UserMessage(message)
  {
    var withSystem := if Given(systemPrompt) then [SystemMessage(systemPrompt.value)] else [];
    var withHistory := if history.Some? && history.value != [] then withSystem + history.value else withSystem;
    Payload(c.model, stream, withHistory + [UserMessage(message)])
  }

  /** Without a system prompt, the request carries exactly the history
      followed by the new user message. */
  lemma RequestWithoutPrompt(c: BielikClient, message: string, history: seq<Message>, stream: bool)
    ensures ChatRequest(c, message, None, Some(history), stream).messages == history + [UserMessage(message)]
  {
  }

  /** The system messages of a request are the given prompt, then the
      history's own system messages: chat adds no other. */
  lemma RequestSystemMessages(c: BielikClient, message: string, systemPrompt: Option<string>,
                              history: Option<seq<Message>>, stream: bool)
    ensures SystemMessages(ChatRequest(c, message, systemPrompt, history, stream).messages)
         == (if Given(systemPrompt) then [SystemMessage(systemPrompt.value)] else []) + SystemMessages(Context(history))
  {
    var sys := if Given(systemPrompt) then [SystemMessage(systemPrompt.value)] else [];
    var ms := ChatRequest(c, message, systemPrompt, history, stream).messages;
    assert ms == sys + Context(history) + [UserMessage(message)];
    SystemMessagesAppend(sys + Context(history), [UserMessage(message)]);
    SystemMessagesAppend(sys, Context(history));
    assert SystemMessages([UserMessage(message)]) == [];
    SystemMessagesOfSystemOnly(sys);
  }

}
