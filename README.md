# Bielik chat client: request assembly, conversation history, stream reading

A Dafny model of the sequential core of the Python example client for an
Ollama-style chat API (`examples/python-client.py`). Three pieces are modelled:

- **Request assembly** (`BielikClient.chat`): the message list sent to the
  chat endpoint is the system prompt (only when one is given, i.e. a
  non-empty string), then the caller's history, then the new user message;
  it is wrapped with the client's fixed model id and the stream flag
  (module `Client`, function `ChatRequest`).
- **Conversation bookkeeping** (`ConversationManager`): a class with a
  `history: seq<Message>` field, a constructor that seeds it with the
  optional system prompt, `SendMessage` and `ClearHistory` (module
  `Conversation`). A ghost field `seed` remembers the history as construction
  left it; the class invariant `Valid()` says the history is the seed followed
  only by user and assistant messages.
- **Stream reading** (the loop of the streaming example): over already
  decoded lines, empty lines are skipped and the `message.content` of each
  record that has one is emitted in order; a line that is not valid JSON
  raises and ends the loop (module `Streaming`).

Python truthiness is modelled as the code uses it: `if system_prompt:` is
false for both `None` and `""` (`Types.Given`), and `if conversation_history:`
is false for both `None` and `[]`.

The chat call's HTTP round trip is a parameter of `SendMessage`,
`post: Payload -> Response`: it either raises (`Failed`, for connection
errors, timeouts, non-success statuses and undecodable bodies) or returns a
decoded body whose `message.content` may be missing (`Replied(None)`).

**`send_message` is not atomic.** The user message is appended (lines
195-198) before `response['message']['content']` is read (line 201), so a
reply without content raises with the user message already in the history;
a raising chat call appends nothing. `HistoryAfter` and `SendMessage` state
this partial update, and `MissingContentLeavesUserMessage` shows its
consequence: two user messages in a row after the next answered send.

**`clear_history` keeps every system-role message** (a filter,
`SystemMessages`); for histories the manager builds, that is exactly the
seed.

Default arguments follow the code: the base URL defaults to
`http://localhost:11434` (lines 12 and 177), the system prompt and history
to absent and `stream` to false (lines 19-21 and 177).

## Model

| member | source | states |
|---|---|---|
| `Client.NewClient` | examples/python-client.py:12-14 | the client keeps the given base URL and always names the fixed model id |
| `Client.ChatRequest` | examples/python-client.py:35-58 | the payload names the client's model and passes `stream` through; its messages are the system prompt first (only when a non-empty prompt is given), then exactly the caller's history, then the user message last; the length is history + 1 (+1 with a prompt) |
| `Client.RequestWithoutPrompt` | examples/python-client.py:45-52 | with no system prompt the messages are exactly the history followed by the user message, so nothing is prepended |
| `Client.RequestSystemMessages` | examples/python-client.py:37-52 | the only system messages in a request are the given prompt, first, and the history's own system messages, in order |
| `Types.SystemMessages` | examples/python-client.py:209 | the filter result is no longer than its input, holds only system messages, and holds a message exactly when the input holds it with the system role |
| `Types.SystemMessagesAppend` | examples/python-client.py:209 | filtering commutes with concatenation, so retained messages keep their relative order |
| `Types.SystemMessagesOfSystemOnly` | examples/python-client.py:209 | a list of only system messages is left unchanged by the filter |
| `Types.SystemMessagesOfNoSystem` | examples/python-client.py:209 | a list without system messages filters to the empty list |
| `Types.SystemMessagesIdempotent` | examples/python-client.py:206-210 | clearing twice gives the same history as clearing once |
| `Types.SystemMessagesMultiset` | examples/python-client.py:209 | each system message is kept as many times as it occurs and every other message is dropped |
| `Conversation.HistoryAfter` | examples/python-client.py:187-204 | one send: the old history stays a prefix; a raising chat call leaves it unchanged; a reply appends the user message; a reply with content also appends the assistant message after it |
| `Conversation.HistoryAfterKeepsSeeded` | examples/python-client.py:194-202 | a send never adds a system message, so the history keeps the seed-then-user/assistant shape |
| `Conversation.ReplayKeepsSeeded` | examples/python-client.py:187-204 | any series of sends keeps that shape |
| `Conversation.ReplayAnswered` | examples/python-client.py:194-204 | after N answered sends the old history is a prefix, the length grew by 2N, and the new part alternates user message i and assistant reply i |
| `Conversation.ClearGivesSeed` | examples/python-client.py:179-185 | clearing a well-shaped history gives back what construction seeded |
| `Conversation.ClearAfterTurns` | examples/python-client.py:177-210 | from construction, any series of sends followed by a clear gives `[]`, or the system prompt alone |
| `Conversation.AnsweredLength` | examples/python-client.py:177-204 | from construction, N answered sends leave 2N messages, or 1 + 2N with a system prompt |
| `Conversation.MissingContentLeavesUserMessage` | examples/python-client.py:195-201 | a reply without content keeps the appended user message, so the next answered send leaves two user messages in a row |
| `Conversation.ConversationManager.constructor` | examples/python-client.py:177-185 | the client is built with the given base URL and the fixed model; the history is `[]`, or exactly the system message when a non-empty prompt is given; the invariant holds |
| `Conversation.ConversationManager.SendMessage` | examples/python-client.py:187-204 | the request sent is the old history plus the user message with no prompt and no streaming; a raising call leaves the history unchanged and re-raises; a reply without content leaves the user message appended and raises `MissingContent`; a reply with content appends user and assistant messages and returns the content |
| `Conversation.ConversationManager.ClearHistory` | examples/python-client.py:206-210 | the new history is the system-role messages of the old, in order, which is exactly the seed |
| `Streaming.Fragments` | examples/python-client.py:164-169 | at most one fragment per line; the reading aborts exactly when some line does not decode; every emitted fragment is the content of a record in the input |
| `Streaming.FragmentsAppend` | examples/python-client.py:164-169 | when a first block of lines decodes, the fragments of the whole are its fragments followed by those of the rest, in order |
| `Streaming.FragmentsComplete` | examples/python-client.py:164-169 | when every line decodes, the reading emits exactly the content of each record that has one, in order, and does not abort |
| `Streaming.FragmentsStopAtMalformed` | examples/python-client.py:164-169 | at the first undecodable line the reading aborts, having emitted exactly the contents of the records before it and nothing after it |
| `Streaming.FragmentsSkipsSilentLines` | examples/python-client.py:165-168 | empty lines and records without content emit nothing |
| `Streaming.StreamFragments` | examples/python-client.py:164-169 | the loop emits exactly the fragments of the reference reading and aborts exactly when it does |

## Left out

- HTTP: `requests.post` and `requests.get`, `raise_for_status`, the 300-second timeout and the URL formatting of `/api/chat` and `/api/tags` (network I/O in a foreign library). The chat round trip is the `post` parameter of `SendMessage`; every way it can raise is a `Failed` response.
- JSON decoding (`response.json()`, `json.loads`): foreign code. Decoded replies are `Response` values and decoded stream lines are `Line` values; the `message.content` of a reply is taken to be a string.
- `list_models` and all `example_*` functions, including their printing and the top-level exception handling: console output and a thin HTTP wrapper. The streaming loop of `example_streaming` is modelled with its printing replaced by the list of emitted fragments.
- `chat` returning the decoded response: the model stops at the payload, since what follows is the POST. `chat` then leaving the caller's history untouched holds in the model by value semantics: sequences cannot be changed through another reference.
- Message dictionaries with roles other than system, user and assistant, or with extra keys: the history the manager builds holds only these three roles.
- Whether concatenated stream fragments equal the non-streaming content, and when a stream is complete: server behaviour, not defined by this code.
- `base_url` is carried by the client but only used to form URLs, which are left out.
