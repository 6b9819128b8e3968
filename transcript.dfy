/**
 * The chat history of the chat screen and the pure updaters applied to
 * it. Every updater either edits the last message only, drops it, or
 * appends to the end; the lemmas say so and relate the updaters to each
 * other (appending in pieces, finalising twice, adopting the chat id).
 */
module Transcript {
  import opened Wrappers
  import opened Strings
  import opened OrderedDict
  import opened HtmlFunctions

  /** The message types of `ChatMessage.jsx`; a stored message may carry any other. */
  datatype Role = User | Assistant | System | Other(name: string)

  /** The `type` string of a role. */
  function RoleName(r: Role): string {
    match r
    case User => "USER"
    case Assistant => "ASSISTANT"
    case System => "SYSTEM"
    case Other(name) => name
  }

  /** The role a `messageType` string from the server stands for. */
  function RoleOf(t: string): (r: Role)
    ensures r == Assistant <==> t == "ASSISTANT"
  {
    if t == "USER" then User
    else if t == "ASSISTANT" then Assistant
    else if t == "SYSTEM" then System
    else Other(t)
  }

  /** Reading a type string as a role loses nothing: the role's name is the string. */
  lemma RoleNameOf(t: string)
    ensures RoleName(RoleOf(t)) == t
  {
  }

  const Welcome := "Hi! How can I assist you today?"

  /**
   * One entry of the history: `{type, text, model, isStreaming, ephemeral,
   * _key, formattedText}`. An absent property is `None` (or false for the
   * flags); `formatted` holds the lines `toJsx` renders.
   */
  datatype Message = Message(
    role: Role,
    text: Option<string>,
    model: Option<string>,
    isStreaming: bool,
    ephemeral: bool,
    key: Option<string>,
    formatted: Option<seq<string>>)

  /** What the server's final answer carries: `response.id` and `response.message.{message, model}`. */
  datatype ReplyMessage = ReplyMessage(message: Option<string>, model: Option<string>)
  datatype Reply = Reply(id: Option<string>, message: Option<ReplyMessage>)

  /** `a ?? b`. */
  function OrElse<T>(a: Option<T>, b: Option<T>): Option<T> {
    if a.Some? then a else b
  }

  function Last(h: seq<Message>): Message
    requires h != []
  {
    h[|h| - 1]
  }

  predicate LastIsAssistant(h: seq<Message>) {
    h != [] && Last(h).role == Assistant
  }

  /** A copy of the history with the last slot replaced. */
  function SetLast(h: seq<Message>, m: Message): (r: seq<Message>)
    requires h != []
    ensures |r| == |h| && r[..|h| - 1] == h[..|h| - 1] && Last(r) == m
  {
    h[..|h| - 1] + [m]
  }

  /** A copy of the history with the last message popped. */
  function DropLast(h: seq<Message>): (r: seq<Message>)
    requires h != []
    ensures |r| == |h| - 1 && r == h[..|h| - 1]
  {
    h[..|h| - 1]
  }

  /** A plain message: no model, not streaming, not ephemeral, nothing rendered. */
  function Plain(role: Role, text: Option<string>, key: Option<string>): Message {
    Message(role, text, None, false, false, key, None)
  }

  /** The empty assistant message that streamed text is appended to. */
  function Placeholder(stamp: string): Message {
    Message(Assistant, Some(""), None, true, false, Some("ai-" + stamp), None)
  }

  // ---------------------------------------------------------------------
  // appendToLastAIMessage

  /** `appendToLastAIMessage(chunk)`: `text := (text || '') + chunk` on a last assistant message. */
  function AppendToLast(h: seq<Message>, chunk: string): (r: seq<Message>)
    ensures |r| == |h|
    ensures h != [] ==> r[..|h| - 1] == h[..|h| - 1]
    ensures !LastIsAssistant(h) ==> r == h
    ensures LastIsAssistant(h) ==>
      Last(r).text == Some(Last(h).text.GetOr("") + chunk) && Last(r) == Last(h).(text := Last(r).text)
  {
    if !LastIsAssistant(h) then h
    else SetLast(h, Last(h).(text := Some(Last(h).text.GetOr("") + chunk)))
  }

  /** Appending two pieces is appending their concatenation: the text does not depend on how it was cut. */
  lemma AppendToLastTwice(h: seq<Message>, a: string, b: string)
    ensures AppendToLast(AppendToLast(h, a), b) == AppendToLast(h, a + b)
  {
    if LastIsAssistant(h) {
      assert Last(h).text.GetOr("") + a + b == Last(h).text.GetOr("") + (a + b);
    }
  }

  /** Appending a sequence of chunks one at a time, as they stream in. */
  function AppendAll(h: seq<Message>, chunks: seq<string>): seq<Message> {
    if chunks == [] then h
    else AppendToLast(AppendAll(h, chunks[..|chunks| - 1]), chunks[|chunks| - 1])
  }

  /** Streaming chunk by chunk gives the same history as appending the whole text once. */
  lemma {:induction false} AppendAllIsAppendConcat(h: seq<Message>, chunks: seq<string>)
    requires chunks != []
    ensures AppendAll(h, chunks) == AppendToLast(h, Concat(chunks))
  {
    var init, last := chunks[..|chunks| - 1], chunks[|chunks| - 1];
    if init == [] {
      assert Concat(chunks) == "" + last == last;
    } else {
      AppendAllIsAppendConcat(h, init);
      AppendToLastTwice(h, Concat(init), last);
    }
  }

  // ---------------------------------------------------------------------
  // finalizeLastAIMessage

  /** `response?.message?.message`. */
  function ReplyText(reply: Option<Reply>): Option<string> {
    if reply.Some? && reply.value.message.Some? then reply.value.message.value.message else None
  }

  /** `response?.message?.model`. */
  function ReplyModel(reply: Option<Reply>): Option<string> {
    if reply.Some? && reply.value.message.Some? then reply.value.message.value.model else None
  }

  /** The last assistant message after the final answer: text and model from the reply where given, rendered, no longer streaming. */
  function Finalized(m: Message, reply: Option<Reply>): Message {
    var text := OrElse(ReplyText(reply), m.text);
    m.(text := text, formatted := Some(DisplayedLines(text)),
       model := OrElse(ReplyModel(reply), m.model), isStreaming := false)
  }

  /** `finalizeLastAIMessage(response)`. */
  function Finalize(h: seq<Message>, reply: Option<Reply>): (r: seq<Message>)
    ensures |r| == |h|
    ensures h != [] ==> r[..|h| - 1] == h[..|h| - 1]
    ensures !LastIsAssistant(h) ==> r == h
    ensures LastIsAssistant(h) ==> Last(r) == Finalized(Last(h), reply)
  {
    if LastIsAssistant(h) then SetLast(h, Finalized(Last(h), reply)) else h
  }

  /** What finalising leaves: a non-null reply text wins, otherwise the streamed text stays; the message stops streaming. */
  lemma FinalizedText(m: Message, reply: Option<Reply>)
    ensures Finalized(m, reply).text == if ReplyText(reply).Some? then ReplyText(reply) else m.text
    ensures Finalized(m, reply).model == if ReplyModel(reply).Some? then ReplyModel(reply) else m.model
    ensures !Finalized(m, reply).isStreaming && Finalized(m, reply).role == m.role
    ensures Finalized(m, reply).formatted == Some(DisplayedLines(Finalized(m, reply).text))
  {
  }

  /** Finalising twice with the same reply is finalising once. */
  lemma FinalizeIdempotent(h: seq<Message>, reply: Option<Reply>)
    ensures Finalize(Finalize(h, reply), reply) == Finalize(h, reply)
  {
    if LastIsAssistant(h) {
      var r := Finalize(h, reply);
      assert LastIsAssistant(r);
      assert Finalized(Last(r), reply) == Last(r);
      assert SetLast(r, Last(r)) == r;
    }
  }

  // ---------------------------------------------------------------------
  // ensureChatIdFromResponse

  /** `if (!chatId && response?.id) setChatId(response.id)`. */
  function AdoptChatId(chatId: Option<string>, reply: Option<Reply>): (r: Option<string>)
    ensures Truthy(chatId) ==> r == chatId
    ensures r != chatId <==> !Truthy(chatId) && reply.Some? && Truthy(reply.value.id) && reply.value.id != chatId
    ensures r == chatId || r == reply.value.id
  {
    if !Truthy(chatId) && reply.Some? && Truthy(reply.value.id) then reply.value.id else chatId
  }

  /** The chat id as replies arrive in order. */
  function AdoptAll(chatId: Option<string>, replies: seq<Option<Reply>>): Option<string> {
    if replies == [] then chatId
    else AdoptChatId(AdoptAll(chatId, replies[..|replies| - 1]), replies[|replies| - 1])
  }

  predicate HasId(reply: Option<Reply>) {
    reply.Some? && Truthy(reply.value.id)
  }

  /** The id of the first reply that has one, reading from the front. */
  function FirstId(replies: seq<Option<Reply>>): Option<string> {
    if replies == [] then None
    else if HasId(replies[0]) then replies[0].value.id
    else FirstId(replies[1..])
  }

  /** Reading one more reply does not change the first id once there is one. */
  lemma {:induction false} FirstIdSnoc(replies: seq<Option<Reply>>, reply: Option<Reply>)
    ensures FirstId(replies + [reply]) == if FirstId(replies).Some? then FirstId(replies) else if HasId(reply) then reply.value.id else None
    ensures FirstId(replies).Some? ==> Truthy(FirstId(replies))
  {
    if replies != [] {
      assert (replies + [reply])[1..] == replies[1..] + [reply];
      FirstIdSnoc(replies[1..], reply);
    } else {
      assert [reply][1..] == [];
    }
  }

  /** Starting without a chat id, the id adopted is the first one any reply carries: later ids never overwrite it. */
  lemma {:induction false} AdoptAllIsFirstId(chatId: Option<string>, replies: seq<Option<Reply>>)
    requires !Truthy(chatId)
    ensures AdoptAll(chatId, replies) == if FirstId(replies).Some? then FirstId(replies) else chatId
  {
    if replies != [] {
      var init, last := replies[..|replies| - 1], replies[|replies| - 1];
      AdoptAllIsFirstId(chatId, init);
      FirstIdSnoc(init, last);
      assert init + [last] == replies;
    }
  }

  // ---------------------------------------------------------------------
  // The placeholder-removal effect

  /** An assistant message whose text is missing, "" or only white space. */
  predicate IsEmptyAssistant(m: Message) {
    m.role == Assistant && (!Truthy(m.text) || Trim(m.text.value) == "")
  }

  /** When an elicitation opens: pop a trailing empty assistant message, keep anything else. */
  function DropEmptyPlaceholder(h: seq<Message>): (r: seq<Message>)
    ensures r == DropLast(h) <== h != [] && IsEmptyAssistant(Last(h))
    ensures r == h <== h == [] || !IsEmptyAssistant(Last(h))
  {
    if h != [] && IsEmptyAssistant(Last(h)) then DropLast(h) else h
  }

  /** The message is popped exactly when it is an assistant message without visible text. */
  lemma DropEmptyPlaceholderIff(h: seq<Message>)
    requires h != []
    ensures |DropEmptyPlaceholder(h)| < |h| <==>
      Last(h).role == Assistant && (Last(h).text.None? || IsBlank(Last(h).text.value))
  {
    if Last(h).text.Some? {
      TrimEmptyIffBlank(Last(h).text.value);
    }
  }

  // ---------------------------------------------------------------------
  // Ephemeral messages

  /** `history.filter(message => !message.ephemeral)`. */
  function Durable(h: seq<Message>): (r: seq<Message>)
    ensures |r| <= |h|
    ensures forall i :: 0 <= i < |r| ==> !r[i].ephemeral
  {
    if h == [] then []
    else Durable(DropLast(h)) + (if Last(h).ephemeral then [] else [Last(h)])
  }

  /** The filter keeps exactly the messages that are not ephemeral. */
  lemma {:induction false} DurableMembers(h: seq<Message>, m: Message)
    ensures m in Durable(h) <==> m in h && !m.ephemeral
  {
    if h != [] {
      DurableMembers(DropLast(h), m);
      assert h == DropLast(h) + [Last(h)];
    }
  }

  /** A history without ephemeral messages passes the filter unchanged. */
  lemma {:induction false} DurableOfDurable(h: seq<Message>)
    requires forall i :: 0 <= i < |h| ==> !h[i].ephemeral
    ensures Durable(h) == h
  {
    if h != [] {
      DurableOfDurable(DropLast(h));
      assert h == DropLast(h) + [Last(h)];
    }
  }

  // ---------------------------------------------------------------------
  // handleSubmit

  /** The history after sending `input`: without the ephemeral messages, then the user's message and an assistant placeholder sharing one stamp. */
  function NewTurn(h: seq<Message>, input: string, stamp: string): seq<Message> {
    Durable(h) + [Plain(User, Some(input), Some("user-" + stamp)), Placeholder(stamp)]
  }

  /** The new turn keeps the durable history as its prefix and ends with the user's message and the placeholder. */
  lemma NewTurnShape(h: seq<Message>, input: string, stamp: string)
    ensures var r := NewTurn(h, input, stamp);
      && |r| == |Durable(h)| + 2 && r[..|r| - 2] == Durable(h)
      && r[|r| - 2] == Plain(User, Some(input), Some("user-" + stamp))
      && Last(r) == Placeholder(stamp) && LastIsAssistant(r)
  {
  }

  /** No message is streaming. */
  predicate Settled(h: seq<Message>) {
    forall i :: 0 <= i < |h| ==> !h[i].isStreaming
  }

  /** Only the last message may be streaming. */
  predicate SettledBeforeLast(h: seq<Message>) {
    forall i :: 0 <= i < |h| - 1 ==> !h[i].isStreaming
  }

  lemma {:induction false} DurableSettled(h: seq<Message>)
    requires Settled(h)
    ensures Settled(Durable(h))
  {
    if h != [] {
      DurableSettled(DropLast(h));
    }
  }

  /** A new turn on a settled history leaves exactly one streaming message: the new placeholder, at the end. */
  lemma NewTurnStreamsLast(h: seq<Message>, input: string, stamp: string)
    requires Settled(h)
    ensures SettledBeforeLast(NewTurn(h, input, stamp)) && Last(NewTurn(h, input, stamp)).isStreaming
  {
    DurableSettled(h);
    NewTurnShape(h, input, stamp);
    var r := NewTurn(h, input, stamp);
    forall i | 0 <= i < |r| - 1 ensures !r[i].isStreaming {
      if i < |r| - 2 {
        assert r[i] == r[..|r| - 2][i];
      }
    }
  }

  /** Appending streamed text keeps the streaming flags. */
  lemma AppendKeepsStreaming(h: seq<Message>, chunk: string)
    requires SettledBeforeLast(h)
    ensures SettledBeforeLast(AppendToLast(h, chunk))
  {
    var r := AppendToLast(h, chunk);
    forall i | 0 <= i < |r| - 1 ensures !r[i].isStreaming {
      assert r[i] == r[..|h| - 1][i];
    }
  }

  /** Finalising the streaming assistant message settles the history. */
  lemma FinalizeSettles(h: seq<Message>, reply: Option<Reply>)
    requires SettledBeforeLast(h) && LastIsAssistant(h)
    ensures Settled(Finalize(h, reply))
  {
    var r := Finalize(h, reply);
    forall i | 0 <= i < |r| ensures !r[i].isStreaming {
      if i < |r| - 1 {
        assert r[i] == r[..|h| - 1][i];
      }
    }
  }

  // ---------------------------------------------------------------------
  // The stream-error updaters of handleSubmit and handleElicitationSubmit

  /** After a failed stream: pop a last assistant message without text (`!text`, not trimmed); otherwise stop it streaming. */
  function RollbackOnError(h: seq<Message>): (r: seq<Message>)
    ensures h != [] && Last(h).role == Assistant && !Truthy(Last(h).text) ==> r == DropLast(h)
    ensures h != [] && Last(h).role == Assistant && Truthy(Last(h).text) ==> r == SetLast(h, Last(h).(isStreaming := false))
    ensures !LastIsAssistant(h) ==> r == h
  {
    if h != [] && Last(h).role == Assistant && !Truthy(Last(h).text) then DropLast(h)
    else if h != [] && Last(h).role == Assistant then SetLast(h, Last(h).(isStreaming := false))
    else h
  }

  /** The rollback keeps every earlier message and at most changes or drops the last. */
  lemma RollbackKeepsPrefix(h: seq<Message>)
    requires h != []
    ensures |RollbackOnError(h)| in {|h| - 1, |h|}
    ensures RollbackOnError(h)[..|h| - 1] == h[..|h| - 1]
  {
  }

  /** After the rollback no message is streaming, when only the last one was. */
  lemma RollbackSettles(h: seq<Message>)
    requires SettledBeforeLast(h) && LastIsAssistant(h)
    ensures Settled(RollbackOnError(h))
  {
    var r := RollbackOnError(h);
    forall i | 0 <= i < |r| ensures !r[i].isStreaming {
      if i < |h| - 1 {
        assert r[i] == r[..|h| - 1][i] == h[i];
      }
    }
  }

  // ---------------------------------------------------------------------
  // handleElicitationSubmit

  /** `{...values, ...(overrides || {})}`. */
  function FieldsToSend(values: Dict<string>, overrides: Option<Dict<string>>): Dict<string> {
    Merge(values, overrides.GetOr([]))
  }

  /** The fields sent: an override wins over the value the form holds. */
  lemma FieldsToSendOverridesWin(values: Dict<string>, overrides: Dict<string>, name: string)
    requires UniqueKeys(overrides)
    ensures Get(FieldsToSend(values, Some(overrides)), name)
            == if name in Keys(overrides) then Get(overrides, name) else Get(values, name)
  {
    GetMerge(values, overrides, name);
  }

  /** Without overrides the form's values are sent as they are. */
  lemma FieldsToSendNoOverrides(values: Dict<string>)
    ensures FieldsToSend(values, None) == values
  {
  }

  /** The text of the user's answer: the values except `chatId`, in entry order, joined by ", ". */
  function Summary(fields: Dict<string>): string {
    Join(ValuesExcept(fields, "chatId"), ", ")
  }

  /** The history after submitting an elicitation: without the ephemeral messages, then the prompt, the answer and a placeholder. */
  function ElicitationTurn(h: seq<Message>, prompt: Option<string>, fields: Dict<string>, stamp: string): seq<Message> {
    Durable(h) + [Plain(System, prompt, Some("user-" + stamp)), Plain(User, Some(Summary(fields)), None), Placeholder(stamp)]
  }

  /** The elicitation turn keeps the durable history as its prefix and ends with the prompt, the answer and the placeholder. */
  lemma ElicitationTurnShape(h: seq<Message>, prompt: Option<string>, fields: Dict<string>, stamp: string)
    ensures var r := ElicitationTurn(h, prompt, fields, stamp);
      && |r| == |Durable(h)| + 3 && r[..|r| - 3] == Durable(h)
      && r[|r| - 3] == Plain(System, prompt, Some("user-" + stamp))
      && r[|r| - 2] == Plain(User, Some(Summary(fields)), None)
      && Last(r) == Placeholder(stamp) && LastIsAssistant(r)
  {
  }

  /** An elicitation turn on a settled history leaves exactly one streaming message, at the end. */
  lemma ElicitationTurnStreamsLast(h: seq<Message>, prompt: Option<string>, fields: Dict<string>, stamp: string)
    requires Settled(h)
    ensures SettledBeforeLast(ElicitationTurn(h, prompt, fields, stamp))
    ensures Last(ElicitationTurn(h, prompt, fields, stamp)).isStreaming
  {
    DurableSettled(h);
    ElicitationTurnShape(h, prompt, fields, stamp);
    var r := ElicitationTurn(h, prompt, fields, stamp);
    forall i | 0 <= i < |r| - 1 ensures !r[i].isStreaming {
      if i < |r| - 3 {
        assert r[i] == r[..|r| - 3][i];
      }
    }
  }

  // ---------------------------------------------------------------------
  // The welcome message and the history load

  /** The welcome effect: an empty history gets one ephemeral assistant greeting keyed by the clock. */
  function WithWelcome(h: seq<Message>, now: nat): (r: seq<Message>)
    ensures h != [] ==> r == h
    ensures h == [] ==> |r| == 1 && r[0].role == Assistant && r[0].text == Some(Welcome) && r[0].ephemeral
  {
    if h == [] then [Message(Assistant, Some(Welcome), None, false, true, Some("welcome-" + NatToString(now)), None)]
    else h
  }

  /** The greeting is dropped by the next turn. */
  lemma WelcomeIsDropped(now: nat, input: string, stamp: string)
    ensures NewTurn(WithWelcome([], now), input, stamp) == NewTurn([], input, stamp)
  {
    assert Durable(WithWelcome([], now)) == [];
  }

  /** A message as the chat-details service returns it. */
  datatype StoredMessage = StoredMessage(messageType: string, message: Option<string>, model: Option<string>, id: Option<string>)

  /** `` message.id ?? `${chatId || 'new'}-${idx}` `` */
  function LoadedKey(m: StoredMessage, chatId: Option<string>, idx: nat): string {
    if m.id.Some? then m.id.value
    else (if Truthy(chatId) then chatId.value else "new") + "-" + NatToString(idx)
  }

  function Loaded(m: StoredMessage, chatId: Option<string>, idx: nat): Message {
    Message(RoleOf(m.messageType), m.message, m.model, false, false, Some(LoadedKey(m, chatId, idx)), None)
  }

  /** The history built from a loaded chat, one message per stored message, in order. */
  function LoadedHistory(stored: seq<StoredMessage>, chatId: Option<string>): (h: seq<Message>)
    ensures |h| == |stored|
    ensures forall i :: 0 <= i < |h| ==> h[i] == Loaded(stored[i], chatId, i)
  {
    seq(|stored|, i requires 0 <= i < |stored| => Loaded(stored[i], chatId, i))
  }

  /** Different numbers have different decimal strings. */
  lemma NatToStringInjective(i: nat, j: nat)
    requires NatToString(i) == NatToString(j)
    ensures i == j
  {
    NatToStringRoundTrip(i);
    NatToStringRoundTrip(j);
  }

  /** Loaded messages without a server id get distinct keys: the key ends in the position. */
  lemma LoadedKeysDistinct(stored: seq<StoredMessage>, chatId: Option<string>, i: nat, j: nat)
    requires i < |stored| && j < |stored| && i != j
    requires stored[i].id.None? && stored[j].id.None?
    ensures LoadedHistory(stored, chatId)[i].key != LoadedHistory(stored, chatId)[j].key
  {
    var p := (if Truthy(chatId) then chatId.value else "new") + "-";
    var ki, kj := LoadedKey(stored[i], chatId, i), LoadedKey(stored[j], chatId, j);
    assert ki == p + NatToString(i) && kj == p + NatToString(j);
    if ki == kj {
      assert ki[|p|..] == NatToString(i);
      assert kj[|p|..] == NatToString(j);
      NatToStringInjective(i, j);
    }
  }

  /** A loaded history is settled and holds nothing ephemeral. */
  lemma LoadedHistorySettled(stored: seq<StoredMessage>, chatId: Option<string>)
    ensures Settled(LoadedHistory(stored, chatId))
    ensures Durable(LoadedHistory(stored, chatId)) == LoadedHistory(stored, chatId)
  {
    DurableOfDurable(LoadedHistory(stored, chatId));
  }
}
