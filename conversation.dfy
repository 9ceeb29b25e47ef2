/** The conversation manager: a client plus an owned, growing message history. */
module Conversation {
  import opened Types
  import opened Client

  /** Why a chat call raised before it returned a decoded body. */
  datatype ChatError = ConnectionFailed | TimedOut | HttpFailed(status: int) | DecodeFailed

  /** What the client's `chat` call yields: it raises, or it returns a decoded
      body whose `message.content` may be missing. */
  datatype Response = Failed(error: ChatError) | Replied(content: Option<string>)

  /** Why `send_message` raised: the chat call raised, or the reply had no
      `message.content` (a `KeyError`). */
  datatype SendError = ChatFailed(cause: ChatError) | MissingContent

  /** The history at construction: the system prompt when one is given. */
  function Seed(systemPrompt: Option<string>): seq<Message>
  {
    if Given(systemPrompt) then [SystemMessage(systemPrompt.value)] else []
  }

  /** The shape every history keeps: the seed, at most one system message,
      then only user and assistant messages. */
  ghost predicate Seeded(seed: seq<Message>, h: seq<Message>)
  {
    && |seed| <= 1
    && (forall i :: 0 <= i < |seed| ==> IsSystem(seed[i]))
    && seed <= h
    && (forall i :: |seed| <= i < |h| ==> !IsSystem(h[i]))
  }

  /** The history after one `send_message` whose chat call yielded `resp`. The
      user message is appended before the reply's content is looked up, so a
      reply without content leaves it appended. */
  function HistoryAfter(h: seq<Message>, message: string, resp: Response): (r: seq<Message>)
    ensures h <= r
    ensures resp.Failed? ==> r == h
    ensures resp.Replied? ==> |r| == |h| + (if resp.content.Some? then 2 else 1)
    ensures resp.Replied? ==> r[|h|] == UserMessage(message)
    ensures resp.Replied? && resp.content.Some? ==> r[|h| + 1] == AssistantMessage(resp.content.value)
  {
    match resp
    case Failed(_) => h
    case Replied(None) => h + [UserMessage(message)]
    case Replied(Some(reply)) => h + [UserMessage(message)] + [AssistantMessage(reply)]
  }

  /** One exchange of a conversation: what was sent and what the chat call yielded. */
  datatype Turn = Turn(message: string, response: Response)

  /** The history after a series of `send_message` calls. */
  function Replay(h: seq<Message>, turns: seq<Turn>): seq<Message>
    decreases |turns|
  {
    if turns == [] then h
    else Replay(HistoryAfter(h, turns[0].message, turns[0].response), turns[1..])
  }

  predicate Answered(t: Turn) { t.response.Replied? && t.response.content.Some? }

  /** A send keeps the shape of the history. */
  lemma HistoryAfterKeepsSeeded(seed: seq<Message>, h: seq<Message>, message: string, resp: Response)
    requires Seeded(seed, h)
    ensures Seeded(seed, HistoryAfter(h, message, resp))
  {
  }

  /** Any series of sends keeps the shape of the history. */
  lemma {:induction false} ReplayKeepsSeeded(seed: seq<Message>, h: seq<Message>, turns: seq<Turn>)
    requires Seeded(seed, h)
    ensures Seeded(seed, Replay(h, turns))
    decreases |turns|
  {
    if turns != [] {
      HistoryAfterKeepsSeeded(seed, h, turns[0].message, turns[0].response);
      ReplayKeepsSeeded(seed, HistoryAfter(h, turns[0].message, turns[0].response), turns[1..]);
    }
  }

  /** After N answered sends the old history is a prefix, the length has grown
      by 2N, and the new part alternates user message and assistant reply. */
  lemma {:induction false} ReplayAnswered(h: seq<Message>, turns: seq<Turn>)
    requires forall i :: 0 <= i < |turns| ==> Answered(turns[i])
    ensures h <= Replay(h, turns)
    ensures |Replay(h, turns)| == |h| + 2 * |turns|
    ensures forall i :: 0 <= i < |turns| ==>
      && Answered(turns[i])
      && Replay(h, turns)[|h| + 2 * i] == UserMessage(turns[i].message)
      && Replay(h, turns)[|h| + 2 * i + 1] == AssistantMessage(turns[i].response.content.value)
    decreases |turns|
  {
    if turns != [] {
      var t := turns[0];
      var h' := HistoryAfter(h, t.message, t.response);
      ReplayAnswered(h', turns[1..]);
      assert Replay(h, turns) == Replay(h', turns[1..]);
      forall i | 0 < i < |turns|
        ensures Replay(h, turns)[|h| + 2 * i] == UserMessage(turns[i].message)
        ensures Replay(h, turns)[|h| + 2 * i + 1] == AssistantMessage(turns[i].response.content.value)
      {
        assert turns[1..][i - 1] == turns[i];
        assert |h'| + 2 * (i - 1) == |h| + 2 * i;
      }
    }
  }

  /** Clearing a well-shaped history gives back its seed. */
  lemma ClearGivesSeed(seed: seq<Message>, h: seq<Message>)
    requires Seeded(seed, h)
    ensures SystemMessages(h) == seed
  {
    assert h == seed + h[|seed|..];
    SystemMessagesAppend(seed, h[|seed|..]);
    SystemMessagesOfSystemOnly(seed);
    SystemMessagesOfNoSystem(h[|seed|..]);
  }

  /** From construction, any series of sends and then a clear gives back the
      seed: `[]`, or the system prompt alone. */
  lemma ClearAfterTurns(systemPrompt: Option<string>, turns: seq<Turn>)
    ensures SystemMessages(Replay(Seed(systemPrompt), turns)) == Seed(systemPrompt)
  {
    ReplayKeepsSeeded(Seed(systemPrompt), Seed(systemPrompt), turns);
    ClearGivesSeed(Seed(systemPrompt), Replay(Seed(systemPrompt), turns));
  }

  /** From construction, N answered sends leave 2N messages, or 1 + 2N with
      a system prompt. */
  lemma AnsweredLength(systemPrompt: Option<string>, turns: seq<Turn>)
    requires forall i :: 0 <= i < |turns| ==> Answered(turns[i])
    ensures |Replay(Seed(systemPrompt), turns)| == (if Given(systemPrompt) then 1 else 0) + 2 * |turns|
  {
    ReplayAnswered(Seed(systemPrompt), turns);
  }

  /** A reply without content leaves the user message behind, so the next
      answered send puts two user messages in a row. */
  lemma MissingContentLeavesUserMessage(h: seq<Message>, first: string, second: string, reply: string)
    ensures var h' := HistoryAfter(HistoryAfter(h, first, Replied(None)), second, Replied(Some(reply)));
      h'[|h|..] == [UserMessage(first), UserMessage(second), AssistantMessage(reply)]
  {
  }

  class ConversationManager {
    const client: BielikClient
    var history: seq<Message>
    /** The history as construction left it; `clear_history` returns to it. */
    ghost var seed: seq<Message>

    ghost predicate Valid()
      reads this
    {
      Seeded(seed, history)
    }

    /** `ConversationManager(base_url, system_prompt)`. */
    constructor (baseUrl: string := DefaultBaseUrl, systemPrompt: Option<string> := None)
      ensures Valid()
      ensures client == NewClient(baseUrl)
      ensures history == seed == Seed(systemPrompt)
    {
      client := NewClient(baseUrl);
      history := [];
      if Given(systemPrompt) {
        history := history + [SystemMessage(systemPrompt.value)];
      }
      seed := history;
    }

    /** `send_message(message)`: sends the history as context with no system
        prompt of its own, then appends the user message and the reply.
        `post` stands for the chat endpoint. */
    method SendMessage(message: string, post: Payload -> Response) returns (r: Result<string, SendError>)
      requires Valid()
      modifies this
      ensures Valid() && seed == old(seed)
      ensures var resp := post(ChatRequest(client, message, None, Some(old(history)), false));
        && history == HistoryAfter(old(history), message, resp)
        && r == match resp
                case Failed(e) => Err(ChatFailed(e))
                case Replied(None) => Err(MissingContent)
                case Replied(Some(reply)) => Ok(reply)
    {
      var resp := post(ChatRequest(client, message, None, Some(history), false));
      if resp.Failed? {
        return Err(ChatFailed(resp.error));
      }
      history := history + [UserMessage(message)];
      if resp.content.None? {
        return Err(MissingContent);
      }
      history := history + [AssistantMessage(resp.content.value)];
      r := Ok(resp.content.value);
    }

    /** `clear_history()`: keeps only the system messages, which is the seed. */
    method ClearHistory()
      requires Valid()
      modifies this
      ensures Valid() && seed == old(seed)
      ensures history == SystemMessages(old(history))
      ensures history == seed
    {
      ClearGivesSeed(seed, history);
      history := SystemMessages(history);
    }
  }
}
