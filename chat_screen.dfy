/**
 * The state of the chat screen and its event handlers. Each handler is a
 * method that changes the fields the component keeps in React state; the
 * history updates are the functions of `Transcript`, applied in call
 * order. A handler that awaits the stream is split in two: the part
 * before the await returns what it sends, and the part after it takes
 * the outcome of the stream (`None` when it succeeded, the error when it
 * failed).
 */
module ChatScreen {
  import opened Wrappers
  import opened Strings
  import opened OrderedDict
  import opened Transcript
  import opened ElicitationPrompt

  /** A snapshot of every field, so that a contract can say which ones a handler changes. */
  datatype ScreenState = ScreenState(
    history: seq<Message>,
    chatId: Option<string>,
    loading: bool,
    error: Option<string>,
    inputValue: string,
    activeElicitation: Option<Elicitation>,
    elicitationValues: Dict<string>,
    submitting: bool)

  /** What `handleSubmit` streams: the text and the current chat id. */
  datatype ChatRequest = ChatRequest(message: string, chatId: Option<string>)

  /** What `handleElicitationSubmit` streams: `{elicitationResponse: {name, fields}}` for one chat and one elicitation. */
  datatype ElicitationRequest = ElicitationRequest(chatId: string, elicitationId: string, name: string, fields: Dict<string>)

  class Screen {
    var history: seq<Message>
    var chatId: Option<string>
    var loading: bool
    var error: Option<string>
    var inputValue: string
    var activeElicitation: Option<Elicitation>
    var elicitationValues: Dict<string>
    var submitting: bool

    function State(): ScreenState
      reads this
    {
      ScreenState(history, chatId, loading, error, inputValue, activeElicitation, elicitationValues, submitting)
    }

    /** The form values are an object: one entry per field name. */
    predicate Valid()
      reads this
    {
      UniqueKeys(elicitationValues)
    }

    /** A fresh screen: empty history, no chat, nothing pending. */
    constructor()
      ensures State() == ScreenState([], None, false, None, "", None, [], false)
      ensures Valid()
    {
      history := [];
      chatId := None;
      loading := false;
      error := None;
      inputValue := "";
      activeElicitation := None;
      elicitationValues := [];
      submitting := false;
    }

    /** `handleInputChange`. */
    method HandleInputChange(value: string)
      modifies this
      ensures State() == old(State()).(inputValue := value)
    {
      inputValue := value;
    }

    /** The welcome effect, run with the clock's reading. */
    method ShowWelcome(now: nat)
      modifies this
      ensures State() == old(State()).(history := WithWelcome(old(history), now))
    {
      history := WithWelcome(history, now);
    }

    /** The history-load effect: when there is a chat id, the loaded chat replaces the history. */
    method LoadHistory(stored: seq<StoredMessage>)
      modifies this
      ensures !Truthy(old(chatId)) ==> State() == old(State())
      ensures Truthy(old(chatId)) ==> State() == old(State()).(history := LoadedHistory(stored, old(chatId)))
    {
      if !Truthy(chatId) {
        return;
      }
      history := LoadedHistory(stored, chatId);
    }

    /** `handleSubmit` up to the await: a blank input does nothing; otherwise start a turn and clear the input. */
    method Submit(stamp: string) returns (request: Option<ChatRequest>)
      modifies this
      ensures Trim(old(inputValue)) == "" ==> request.None? && unchanged(this)
      ensures Trim(old(inputValue)) != "" ==> request == Some(ChatRequest(old(inputValue), old(chatId)))
      ensures Trim(old(inputValue)) != "" ==>
        State() == old(State()).(history := NewTurn(old(history), old(inputValue), stamp),
                                 loading := true, inputValue := "", error := None)
    {
      var blank := Trim(inputValue) == "";
      if blank {
        return None;
      }
      request := Some(ChatRequest(inputValue, chatId));
      history := NewTurn(history, inputValue, stamp);
      loading := true;
      inputValue := "";
      error := None;
    }

    /** `handleSubmit` after the await: on failure record the error and roll the placeholder back; stop loading either way. */
    method SubmitSettled(failure: Option<string>)
      modifies this
      ensures failure.None? ==> State() == old(State()).(loading := false)
      ensures failure.Some? ==> State() == old(State()).(loading := false, error := failure, history := RollbackOnError(old(history)))
    {
      if failure.Some? {
        error := failure;
        history := RollbackOnError(history);
      }
      loading := false;
    }

    /** `appendToLastAIMessage`. */
    method AppendChunk(chunk: string)
      modifies this
      ensures State() == old(State()).(history := AppendToLast(old(history), chunk))
    {
      history := AppendToLast(history, chunk);
    }

    /** `finalizeLastAIMessage`. */
    method FinalizeLast(reply: Option<Reply>)
      modifies this
      ensures State() == old(State()).(history := Finalize(old(history), reply))
    {
      history := Finalize(history, reply);
    }

    /** `ensureChatIdFromResponse`. */
    method EnsureChatId(reply: Option<Reply>)
      modifies this
      ensures State() == old(State()).(chatId := AdoptChatId(old(chatId), reply))
    {
      chatId := AdoptChatId(chatId, reply);
    }

    /** `setActiveElicitation(e)` followed by its effect: opening a prompt drops an empty trailing placeholder. */
    method SetActiveElicitation(e: Option<Elicitation>)
      modifies this
      ensures e.None? ==> State() == old(State()).(activeElicitation := e)
      ensures e.Some? ==> State() == old(State()).(activeElicitation := e, history := DropEmptyPlaceholder(old(history)))
    {
      activeElicitation := e;
      if e.Some? {
        history := DropEmptyPlaceholder(history);
      }
    }

    /** `handleElicitationChange(name, value)`: only that field's value changes. */
    method HandleElicitationChange(name: string, value: string)
      requires Valid()
      modifies this
      ensures Valid()
      ensures State() == old(State()).(elicitationValues := Set(old(elicitationValues), name, value))
      ensures forall q :: Get(elicitationValues, q) == if q == name then Some(value) else Get(old(elicitationValues), q)
    {
      SetUnique(elicitationValues, name, value);
      forall q ensures Get(Set(elicitationValues, name, value), q) == if q == name then Some(value) else Get(elicitationValues, q) {
        GetSet(elicitationValues, name, value, q);
      }
      elicitationValues := Set(elicitationValues, name, value);
    }

    /**
     * `handleElicitationSubmit` up to the await: without an active
     * elicitation nothing happens; otherwise the values overlaid with the
     * overrides are sent and the turn is recorded in the history.
     */
    method SubmitElicitation(overrides: Option<Dict<string>>, stamp: string) returns (request: Option<ElicitationRequest>)
      modifies this
      ensures old(activeElicitation).None? ==> request.None? && unchanged(this)
      ensures old(activeElicitation).Some? ==>
        request == Some(ElicitationRequest(old(activeElicitation).value.chatId, old(activeElicitation).value.elicitationId,
                                           old(activeElicitation).value.name, FieldsToSend(old(elicitationValues), overrides)))
      ensures old(activeElicitation).Some? ==>
        State() == old(State()).(history := ElicitationTurn(old(history), old(activeElicitation).value.message,
                                                            FieldsToSend(old(elicitationValues), overrides), stamp),
                                 submitting := true, error := None)
    {
      if activeElicitation.None? {
        request := None;
      } else {
        var e := activeElicitation.value;
        var fields := FieldsToSend(elicitationValues, overrides);
        history := ElicitationTurn(history, e.message, fields, stamp);
        submitting := true;
        error := None;
        request := Some(ElicitationRequest(e.chatId, e.elicitationId, e.name, fields));
      }
    }

    /** `handleElicitationSubmit` after the await: whatever the outcome, the prompt closes and submitting ends. */
    method ElicitationSettled(failure: Option<string>)
      modifies this
      ensures activeElicitation.None? && !submitting
      ensures failure.None? ==> State() == old(State()).(activeElicitation := None, submitting := false)
      ensures failure.Some? ==>
        State() == old(State()).(activeElicitation := None, submitting := false,
                                 error := failure, history := RollbackOnError(old(history)))
    {
      if failure.Some? {
        error := failure;
        history := RollbackOnError(history);
      }
      activeElicitation := None;
      submitting := false;
    }
  }

  /** The chunks of one answer arriving in order, each appended to the streaming assistant message. */
  method StreamChunks(s: Screen, chunks: seq<string>)
    requires LastIsAssistant(s.history) && SettledBeforeLast(s.history) && Last(s.history).text == Some("")
    modifies s
    ensures s.history == AppendAll(old(s.history), chunks)
    ensures LastIsAssistant(s.history) && SettledBeforeLast(s.history)
    ensures Last(s.history).text == Some(Concat(chunks))
  {
    var i := 0;
    while i < |chunks|
      invariant 0 <= i <= |chunks|
      invariant s.history == AppendAll(old(s.history), chunks[..i])
      invariant LastIsAssistant(s.history) && SettledBeforeLast(s.history)
      invariant Last(s.history).text == Some(Concat(chunks[..i]))
    {
      assert chunks[..i + 1][..i] == chunks[..i];
      AppendKeepsStreaming(s.history, chunks[i]);
      s.AppendChunk(chunks[i]);
      i := i + 1;
    }
    assert chunks[..|chunks|] == chunks;
  }

  /**
   * A whole turn: send, stream the chunks, finish with the reply. When the
   * history was settled, the new turn ends settled, with the reply's text
   * (or, without one, the streamed text) as its last message.
   */
  method Converse(s: Screen, stamp: string, chunks: seq<string>, reply: Option<Reply>) returns (request: Option<ChatRequest>)
    requires Settled(s.history) && Trim(s.inputValue) != ""
    modifies s
    ensures request.Some? && Settled(s.history) && !s.loading
    ensures LastIsAssistant(s.history)
    ensures Last(s.history).text == OrElse(ReplyText(reply), Some(Concat(chunks)))
  {
    NewTurnStreamsLast(s.history, s.inputValue, stamp);
    request := s.Submit(stamp);
    StreamChunks(s, chunks);
    FinalizeSettles(s.history, reply);
    s.FinalizeLast(reply);
    s.SubmitSettled(None);
  }
}
