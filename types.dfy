/** Values shared by the chat client, the conversation manager and the
    stream reader: optional values, results, and chat messages. */
module Types {

  datatype Option<+T> = None | Some(value: T)

  datatype Result<+T, +E> = Ok(value: T) | Err(error: E)

  /** The roles a chat message carries in the client's `{"role", "content"}` dictionaries. */
  datatype Role = System | User | Assistant

  /** One chat message; immutable once built. */
  datatype Message = Message(role: Role, content: string)

  function SystemMessage(content: string): Message { Message(System, content) }

  function UserMessage(content: string): Message { Message(User, content) }

  function AssistantMessage(content: string): Message { Message(Assistant, content) }

  predicate IsSystem(m: Message) { m.role == System }

  /** Python truthiness of an optional prompt: both `None` and `""` are false. */
  predicate Given(s: Option<string>) { s.Some? && s.value != "" }

  /** The system-role messages of `h`, in their order in `h`: the list
      comprehension `[msg for msg in h if msg['role'] == 'system']`. */
  function SystemMessages(h: seq<Message>): (r: seq<Message>)
    ensures |r| <= |h|
    ensures forall i :: 0 <= i < |r| ==> IsSystem(r[i])
    ensures forall m :: m in r <==> m in h && IsSystem(m)
  {
    if h == [] then []
    else (if IsSystem(h[0]) then [h[0]] else []) + SystemMessages(h[1..])
  }

  /** Filtering commutes with concatenation, so the filter keeps the relative
      order of the messages it retains. */
  lemma {:induction false} SystemMessagesAppend(a: seq<Message>, b: seq<Message>)
    ensures SystemMessages(a + b) == SystemMessages(a) + SystemMessages(b)
  {
    if a == [] {
      assert a + b == b;
    } else {
      assert (a + b)[0] == a[0];
      assert (a + b)[1..] == a[1..] + b;
      SystemMessagesAppend(a[1..], b);
    }
  }

  /** A list made only of system messages passes the filter unchanged. */
  lemma {:induction false} SystemMessagesOfSystemOnly(h: seq<Message>)
    requires forall i :: 0 <= i < |h| ==> IsSystem(h[i])
    ensures SystemMessages(h) == h
  {
    if h != [] {
      SystemMessagesOfSystemOnly(h[1..]);
    }
  }

  /** A list without system messages filters to nothing. */
  lemma {:induction false} SystemMessagesOfNoSystem(h: seq<Message>)
    requires forall i :: 0 <= i < |h| ==> !IsSystem(h[i])
    ensures SystemMessages(h) == []
  {
    if h != [] {
      SystemMessagesOfNoSystem(h[1..]);
    }
  }

  /** Filtering twice is filtering once. */
  lemma SystemMessagesIdempotent(h: seq<Message>)
    ensures SystemMessages(SystemMessages(h)) == SystemMessages(h)
  {
    SystemMessagesOfSystemOnly(SystemMessages(h));
  }

  /** The filter keeps every system message as often as it occurs and drops
      every other message. */
  lemma {:induction false} SystemMessagesMultiset(h: seq<Message>, m: Message)
    ensures multiset(SystemMessages(h))[m] == if IsSystem(m) then multiset(h)[m] else 0
  {
    if h != [] {
      assert h == [h[0]] + h[1..];
      SystemMessagesMultiset(h[1..], m);
    }
  }
}
